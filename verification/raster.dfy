/** The `draw` members of utils.cpp, with the renderer replaced by the list of
    render commands they issue. `Circle::draw` is the midpoint-circle loop: it walks
    the first octant (0 <= y <= x) row by row and mirrors each (x, y) eight ways,
    as points for an outline or as four horizontal lines for a filled disk. */
module Raster {
  import opened SdlTypes
  import opened Shapes

  /** An offset (dx, dy) from the circle's centre. */
  datatype Offset = Offset(dx: int, dy: int)

  /** The offset (dx, dy) lies in the closed disk of radius r. */
  predicate InDisk(r: int, dx: int, dy: int) {
    dx * dx + dy * dy <= r * r
  }

  lemma SquareMonotone(a: int, b: int)
    requires 0 <= a <= b
    ensures a * a <= b * b
  {
    assert a * a <= a * b <= b * b;
  }

  // ---------------------------------------------------------------------------
  // Reference definition of the octant the loop walks

  /** The outermost column u <= t on row y that lies in the disk; negative if none does. */
  function ColumnSearch(r: int, y: int, t: int): (c: int)
    decreases t + 1
    ensures c <= t
    ensures 0 <= c ==> InDisk(r, c, y)
    ensures forall u :: c < u <= t ==> !InDisk(r, u, y)
  {
    if t < 0 then t
    else if InDisk(r, t, y) then t
    else ColumnSearch(r, y, t - 1)
  }

  /** Row y of the octant: the outermost column t <= r - 1 with t*t + y*y <= r*r. */
  function RowColumn(r: int, y: int): int {
    ColumnSearch(r, y, r - 1)
  }

  /** Rows y, y + 1, ... of the octant, up to (excluding) the first row whose
      column lies below the diagonal. */
  function OctantRows(r: int, y: int): seq<Offset>
    decreases r - y
  {
    var c := RowColumn(r, y);
    if c < y then [] else [Offset(c, y)] + OctantRows(r, y + 1)
  }

  /** The whole first octant of a circle of radius r. */
  function Octant(r: int): seq<Offset> {
    OctantRows(r, 0)
  }

  /** A column x that is in the disk, at most r - 1, and either r - 1 itself or
      the last one before the disk's edge, is the row's column. */
  lemma RowColumnIs(r: int, y: int, x: int)
    requires 0 <= x <= r - 1
    requires InDisk(r, x, y)
    requires x == r - 1 || !InDisk(r, x + 1, y)
    ensures RowColumn(r, y) == x
  {
    var c := RowColumn(r, y);
    if c > x {
      SquareMonotone(x + 1, c);
    }
  }

  /** If the diagonal point (y, y) is outside the disk, row y has no column on or above the diagonal. */
  lemma RowBelowDiagonal(r: int, y: int)
    requires 0 <= y
    requires !InDisk(r, y, y)
    ensures RowColumn(r, y) < y
  {
    var c := RowColumn(r, y);
    if c >= y {
      SquareMonotone(y, c);
    }
  }

  /** Each row of `OctantRows(r, y)` is its own row's column, on or above the diagonal. */
  lemma {:induction false} OctantRowsShape(r: int, y: int)
    ensures forall i :: 0 <= i < |OctantRows(r, y)| ==>
      OctantRows(r, y)[i] == Offset(RowColumn(r, y + i), y + i) && y + i <= RowColumn(r, y + i)
    decreases r - y
  {
    var c := RowColumn(r, y);
    if c >= y {
      OctantRowsShape(r, y + 1);
      var o := OctantRows(r, y);
      forall i | 0 <= i < |o|
        ensures o[i] == Offset(RowColumn(r, y + i), y + i) && y + i <= RowColumn(r, y + i)
      {
        if i > 0 {
          assert o[i] == OctantRows(r, y + 1)[i - 1];
        }
      }
    }
  }

  /** The octant of a circle of radius r: row i has dy == i and, as dx, the
      outermost column inside the disk (at most r - 1), with i <= dx; the rows
      run exactly while the diagonal point (i, i) is inside the disk; a radius
      r <= 0 has no rows at all. */
  lemma OctantCharacterization(r: int)
    ensures forall i :: 0 <= i < |Octant(r)| ==>
      Octant(r)[i].dy == i && i <= Octant(r)[i].dx <= r - 1 && InDisk(r, Octant(r)[i].dx, i)
    ensures forall i :: 1 <= i < |Octant(r)| ==> !InDisk(r, Octant(r)[i].dx + 1, i)
    ensures r <= 0 ==> |Octant(r)| == 0
    ensures |Octant(r)| > 0 ==> Octant(r)[0] == Offset(r - 1, 0)
    ensures r >= 1 ==> forall i :: 0 <= i ==> (i < |Octant(r)| <==> InDisk(r, i, i))
  {
    var o := Octant(r);
    OctantRowsShape(r, 0);
    if |o| > 0 {
      RowColumnIs(r, 0, r - 1);
    }
    forall i | 0 <= i < |o|
      ensures o[i].dy == i && i <= o[i].dx <= r - 1 && InDisk(r, o[i].dx, i)
      ensures i >= 1 ==> !InDisk(r, o[i].dx + 1, i)
    {
      assert o[i] == Offset(RowColumn(r, i), i);
      if i >= 1 && o[i].dx + 1 <= r - 1 {
        assert o[i].dx < o[i].dx + 1 <= r - 1;
      }
    }
    if r >= 1 {
      forall i | 0 <= i
        ensures i < |o| <==> InDisk(r, i, i)
      {
        if i < |o| {
          SquareMonotone(i, o[i].dx);
        } else {
          OctantStops(r, 0, i);
        }
      }
    }
  }

  /** Past its end, `OctantRows(r, y)` leaves the disk along the diagonal. */
  lemma {:induction false} OctantStops(r: int, y: int, i: int)
    requires r >= 1 && 0 <= y <= i
    requires y + |OctantRows(r, y)| <= i
    ensures !InDisk(r, i, i)
    decreases r - y
  {
    var c := RowColumn(r, y);
    if c < y {
      // Row y has no column on or above the diagonal, so (y, y) is outside the
      // disk; diagonal points further out are further from the centre.
      if y >= r {
        SquareMonotone(1, r);
        SquareMonotone(r, y);
      }
      assert !InDisk(r, y, y);
      SquareMonotone(y, i);
    } else {
      OctantStops(r, y + 1, i);
    }
  }

  // ---------------------------------------------------------------------------
  // Commands

  /** The commands one loop iteration issues for the octant offset `o` around (cx, cy),
      in the order of the source. */
  function OctantCommands(cx: int, cy: int, fill: bool, o: Offset): seq<RenderCmd> {
    var x := o.dx;
    var y := o.dy;
    if fill then
      [ DrawLine(cx + x, cy + y, cx - x, cy + y),
        DrawLine(cx + x, cy - y, cx - x, cy - y),
        DrawLine(cx + y, cy + x, cx - y, cy + x),
        DrawLine(cx + y, cy - x, cx - y, cy - x) ]
    else
      [ DrawPoint(cx + x, cy - y), DrawPoint(cx + x, cy + y),
        DrawPoint(cx - x, cy - y), DrawPoint(cx - x, cy + y),
        DrawPoint(cx + y, cy - x), DrawPoint(cx + y, cy + x),
        DrawPoint(cx - y, cy - x), DrawPoint(cx - y, cy + x) ]
  }

  /** The commands of all iterations, in order. */
  function OctantsCommands(cx: int, cy: int, fill: bool, os: seq<Offset>): seq<RenderCmd>
    decreases |os|
  {
    if |os| == 0 then [] else OctantCommands(cx, cy, fill, os[0]) + OctantsCommands(cx, cy, fill, os[1..])
  }

  /** What `draw` issues for a shape: the draw colour first, then the primitives. */
  function Draw(s: Shape): (cmds: seq<RenderCmd>)
    ensures |cmds| >= 1 && cmds[0] == SetDrawColor(s.color)
    ensures !s.Circle? ==> |cmds| == 2
    ensures s.Rectangle? ==> cmds[1].FillRect? || cmds[1].DrawRect?
    ensures s.Rectangle? ==> cmds[1].rect == Rect(s.x, s.y, s.width, s.height)
    ensures s.Rectangle? ==> (cmds[1].FillRect? <==> s.fill)
    ensures s.Point? ==> cmds[1] == DrawPoint(s.x, s.y)
  {
    match s
    case Circle(cx, cy, color, fill, r) =>
      [SetDrawColor(color)] + OctantsCommands(cx, cy, fill, Octant(r))
    case Rectangle(x, y, color, fill, w, h) =>
      [SetDrawColor(color), if fill then FillRect(Rect(x, y, w, h)) else DrawRect(Rect(x, y, w, h))]
    case Point(x, y, color, _) =>
      [SetDrawColor(color), DrawPoint(x, y)]
  }

  /** What the midpoint loop knows at its head, for radius r and state (x, y, error):
      error measures x*x + y*y against r*r, and while the loop runs, x is the row's
      column; once it stops, row y has no column on or above the diagonal. */
  ghost predicate MidpointInv(r: int, x: int, y: int, error: int) {
    && 0 <= y && x <= r - 1
    && error == x * x + y * y - r * r
    && (x >= y ==> error <= 0 && (x == r - 1 || -2 * x - 1 < error) && x == RowColumn(r, y))
    && (x < y ==> RowColumn(r, y) < y)
  }

  /** The loop's first state satisfies `MidpointInv`. */
  lemma MidpointStart(r: int)
    ensures MidpointInv(r, r - 1, 0, 1 - 2 * r)
  {
    if r - 1 >= 0 {
      RowColumnIs(r, 0, r - 1);
    }
  }

  /** One iteration from a state where the loop runs: y always advances (error <= 0
      at the head), and x retreats when the advanced error turns positive. */
  lemma MidpointStep(r: int, x: int, y: int, error: int, x': int, error': int)
    requires MidpointInv(r, x, y, error) && x >= y
    requires error + 2 * y + 1 > 0 ==> x' == x - 1 && error' == error + 2 * y + 1 + 1 - 2 * x
    requires error + 2 * y + 1 <= 0 ==> x' == x && error' == error + 2 * y + 1
    ensures MidpointInv(r, x', y + 1, error')
  {
    var y' := y + 1;
    assert y' * y' == y * y + 2 * y + 1;
    if x' == x - 1 {
      assert x' * x' == x * x - 2 * x + 1;
    }
    assert error' == x' * x' + y' * y' - r * r;
    if x' >= y' {
      RowColumnIs(r, y', x');
    } else {
      assert !InDisk(r, y', y') by {
        if x' == x {
          assert y' * y' + y' * y' - r * r == error' + 2 * x + 1;
        } else {
          SquareMonotone(x, y');
        }
      }
      RowBelowDiagonal(r, y');
    }
  }

  /** Circle::draw as the source writes it: the midpoint loop over x, y, tx, ty and
      error, issuing commands as it goes. It issues exactly what `Draw` describes:
      the draw colour, then the eight-way mirror of each row of `Octant(radius)`. */
  method DrawCircle(s: Shape) returns (cmds: seq<RenderCmd>)
    requires s.Circle?
    ensures cmds == Draw(s)
  {
    var r := s.radius;
    var diameter := r * 2;
    var x := r - 1;
    var y := 0;
    var tx := 1;
    var ty := 1;
    var error := tx - diameter;
    cmds := [SetDrawColor(s.color)];
    ghost var whole := [SetDrawColor(s.color)] + OctantsCommands(s.x, s.y, s.fill, Octant(r));
    CircleDrawSplits(s);
    MidpointStart(r);
    while x >= y
      invariant ty == 2 * y + 1 && tx == 2 * (r - 1 - x) + 1
      invariant MidpointInv(r, x, y, error)
      invariant cmds + OctantsCommands(s.x, s.y, s.fill, OctantRows(r, y)) == whole
      decreases x - y
    {
      var row := Offset(x, y);
      ghost var rest := OctantRows(r, y + 1);
      assert OctantRows(r, y) == [row] + rest;
      assert ([row] + rest)[1..] == rest;
      assert OctantsCommands(s.x, s.y, s.fill, OctantRows(r, y))
        == OctantCommands(s.x, s.y, s.fill, row) + OctantsCommands(s.x, s.y, s.fill, rest);
      cmds := cmds + OctantCommands(s.x, s.y, s.fill, row);
      ghost var x0, y0, e0 := x, y, error;
      if error <= 0 {
        y := y + 1;
        error := error + ty;
        ty := ty + 2;
      }
      if error > 0 {
        x := x - 1;
        tx := tx + 2;
        error := error + (tx - diameter);
      }
      MidpointStep(r, x0, y0, e0, x, error);
    }
  }

  // ---------------------------------------------------------------------------
  // Properties of what is drawn

  /** A command of the concatenated iterations comes from one iteration, `k`. */
  lemma {:induction false} RowOfCommand(cx: int, cy: int, fill: bool, os: seq<Offset>, c: RenderCmd)
    returns (k: int)
    requires c in OctantsCommands(cx, cy, fill, os)
    ensures 0 <= k < |os| && c in OctantCommands(cx, cy, fill, os[k])
    decreases |os|
  {
    if c in OctantCommands(cx, cy, fill, os[0]) {
      k := 0;
    } else {
      var j := RowOfCommand(cx, cy, fill, os[1..], c);
      k := j + 1;
    }
  }

  /** Every command of every iteration is issued. */
  lemma {:induction false} CommandOfRow(cx: int, cy: int, fill: bool, os: seq<Offset>, k: int, c: RenderCmd)
    requires 0 <= k < |os| && c in OctantCommands(cx, cy, fill, os[k])
    ensures c in OctantsCommands(cx, cy, fill, os)
    decreases |os|
  {
    if k > 0 {
      CommandOfRow(cx, cy, fill, os[1..], k - 1, c);
    }
  }

  /** Every iteration issues 8 points (outline) or 4 lines (filled). */
  lemma {:induction false} OctantsCommandsLength(cx: int, cy: int, fill: bool, os: seq<Offset>)
    ensures |OctantsCommands(cx, cy, fill, os)| == (if fill then 4 else 8) * |os|
    decreases |os|
  {
    if |os| > 0 {
      OctantsCommandsLength(cx, cy, fill, os[1..]);
    }
  }

  /** The drawing of a circle: its colour, then the commands of its octant rows. */
  lemma CircleDrawSplits(s: Shape)
    requires s.Circle?
    ensures Draw(s) == [SetDrawColor(s.color)] + OctantsCommands(s.x, s.y, s.fill, Octant(s.radius))
  {
  }

  /** `draw` sets the shape's colour first and never again: every later command
      is a primitive. A rectangle is one FillRect (filled) or DrawRect (outline) of
      {x, y, width, height}; a point is one DrawPoint at (x, y); a circle issues
      8 points or 4 lines per octant row, and nothing at all when its radius is <= 0. */
  lemma DrawShape(s: Shape)
    ensures |Draw(s)| >= 1 && Draw(s)[0] == SetDrawColor(s.color)
    ensures forall i :: 1 <= i < |Draw(s)| ==> !Draw(s)[i].SetDrawColor?
    ensures s.Rectangle? ==> |Draw(s)| == 2
    ensures s.Rectangle? && s.fill ==> Draw(s)[1] == FillRect(Rect(s.x, s.y, s.width, s.height))
    ensures s.Rectangle? && !s.fill ==> Draw(s)[1] == DrawRect(Rect(s.x, s.y, s.width, s.height))
    ensures s.Point? ==> Draw(s) == [SetDrawColor(s.color), DrawPoint(s.x, s.y)]
    ensures s.Circle? ==> |Draw(s)| == 1 + (if s.fill then 4 else 8) * |Octant(s.radius)|
    ensures s.Circle? && s.radius <= 0 ==> Draw(s) == [SetDrawColor(s.color)]
  {
    if s.Circle? {
      OctantCharacterization(s.radius);
      OctantsCommandsLength(s.x, s.y, s.fill, Octant(s.radius));
      var body := OctantsCommands(s.x, s.y, s.fill, Octant(s.radius));
      CircleDrawSplits(s);
      forall i | 1 <= i < |Draw(s)|
        ensures !Draw(s)[i].SetDrawColor?
      {
        assert Draw(s)[i] == body[i - 1];
        var k := RowOfCommand(s.x, s.y, s.fill, Octant(s.radius), body[i - 1]);
      }
    }
  }

  /** The eight mirror images the source draws for one octant offset, as points. */
  lemma OctantPoint(cx: int, cy: int, o: Offset, px: int, py: int)
    requires DrawPoint(px, py) in OctantCommands(cx, cy, false, o)
    ensures (px - cx) * (px - cx) + (py - cy) * (py - cy) == o.dx * o.dx + o.dy * o.dy
    ensures px - cx in {o.dx, -o.dx, o.dy, -o.dy} && py - cy in {o.dx, -o.dx, o.dy, -o.dy}
    ensures DrawPoint(cx + (py - cy), cy + (px - cx)) in OctantCommands(cx, cy, false, o)
    ensures DrawPoint(cx - (px - cx), py) in OctantCommands(cx, cy, false, o)
    ensures DrawPoint(px, cy - (py - cy)) in OctantCommands(cx, cy, false, o)
  {
    var cmds := OctantCommands(cx, cy, false, o);
    var i :| 0 <= i < 8 && cmds[i] == DrawPoint(px, py);
    var a, b := px - cx, py - cy;
    if i < 4 {
      OffsetSquares(a, b, o.dx, o.dy);
    } else {
      OffsetSquares(a, b, o.dy, o.dx);
    }
    ImagesInRow(cx, cy, false, o, px, py);
  }

  /** Sign changes do not change a sum of squares. */
  lemma OffsetSquares(a: int, b: int, x: int, y: int)
    requires a in {x, -x} && b in {y, -y}
    ensures a * a + b * b == x * x + y * y
  {
    assert a * a == x * x by {
      if a == -x {
        assert a * a == (-x) * (-x);
      }
    }
    assert b * b == y * y by {
      if b == -y {
        assert b * b == (-y) * (-y);
      }
    }
  }

  /** Row k of the octant: dy == k, k <= dx <= r - 1, and (dx, k) is in the disk. */
  lemma OctantRow(r: int, k: int)
    requires 0 <= k < |Octant(r)|
    ensures Octant(r)[k].dy == k && k <= Octant(r)[k].dx <= r - 1
    ensures InDisk(r, Octant(r)[k].dx, k)
  {
    OctantRowsShape(r, 0);
    assert Octant(r)[k] == Offset(RowColumn(r, k), k);
  }

  /** Where one drawn outline point lies. */
  lemma OutlinePointBounds(s: Shape, px: int, py: int)
    requires s.Circle? && !s.fill
    requires DrawPoint(px, py) in Draw(s)
    ensures InDisk(s.radius, px - s.x, py - s.y)
    ensures -(s.radius - 1) <= px - s.x <= s.radius - 1 && -(s.radius - 1) <= py - s.y <= s.radius - 1
  {
    CircleDrawSplits(s);
    RowsPointBounds(s.x, s.y, s.fill, s.radius, px, py);
  }

  /** Where a point among the outline rows of a circle of radius r lies. */
  lemma RowsPointBounds(cx: int, cy: int, fill: bool, r: int, px: int, py: int)
    requires !fill && DrawPoint(px, py) in OctantsCommands(cx, cy, fill, Octant(r))
    ensures InDisk(r, px - cx, py - cy)
    ensures -(r - 1) <= px - cx <= r - 1 && -(r - 1) <= py - cy <= r - 1
  {
    var os := Octant(r);
    var k := RowOfCommand(cx, cy, fill, os, DrawPoint(px, py));
    OctantPoint(cx, cy, os[k], px, py);
    OctantRow(r, k);
  }

  /** The mirror images of a point among the outline commands of rows os are
      among them too. */
  lemma RowsImages(cx: int, cy: int, fill: bool, os: seq<Offset>, px: int, py: int)
    requires !fill && DrawPoint(px, py) in OctantsCommands(cx, cy, fill, os)
    ensures DrawPoint(cx + (py - cy), cy + (px - cx)) in OctantsCommands(cx, cy, fill, os)
    ensures DrawPoint(cx - (px - cx), py) in OctantsCommands(cx, cy, fill, os)
    ensures DrawPoint(px, cy - (py - cy)) in OctantsCommands(cx, cy, fill, os)
  {
    var k := RowOfCommand(cx, cy, fill, os, DrawPoint(px, py));
    ImagesInRow(cx, cy, fill, os[k], px, py);
    CommandOfRow(cx, cy, fill, os, k, DrawPoint(cx + (py - cy), cy + (px - cx)));
    CommandOfRow(cx, cy, fill, os, k, DrawPoint(cx - (px - cx), py));
    CommandOfRow(cx, cy, fill, os, k, DrawPoint(px, cy - (py - cy)));
  }

  /** The mirror images of a point of one outline row are in that row. */
  lemma ImagesInRow(cx: int, cy: int, fill: bool, o: Offset, px: int, py: int)
    requires !fill && DrawPoint(px, py) in OctantCommands(cx, cy, fill, o)
    ensures DrawPoint(cx + (py - cy), cy + (px - cx)) in OctantCommands(cx, cy, fill, o)
    ensures DrawPoint(cx - (px - cx), py) in OctantCommands(cx, cy, fill, o)
    ensures DrawPoint(px, cy - (py - cy)) in OctantCommands(cx, cy, fill, o)
  {
    var cmds := OctantCommands(cx, cy, fill, o);
    var i :| 0 <= i < 8 && cmds[i] == DrawPoint(px, py);
    // The points are (x, -y), (x, y), (-x, -y), (-x, y), (y, -x), (y, x), (-y, -x),
    // (-y, x) around the centre; these tables give each one's three images.
    var swap, flipX, flipY := [7, 5, 6, 4, 3, 1, 2, 0][i], [2, 3, 0, 1, 6, 7, 4, 5][i], [1, 0, 3, 2, 5, 4, 7, 6][i];
    assert cmds[swap] == DrawPoint(cx + (py - cy), cy + (px - cx));
    assert cmds[flipX] == DrawPoint(cx - (px - cx), py);
    assert cmds[flipY] == DrawPoint(px, cy - (py - cy));
  }

  /** An outline circle issues only points; each lies in the closed disk of radius r
      around the centre, and in the square |dx|, |dy| <= r - 1. */
  lemma OutlinePointsInDisk(s: Shape)
    requires s.Circle? && !s.fill
    ensures forall c :: c in Draw(s)[1..] ==> c.DrawPoint?
    ensures forall px, py :: DrawPoint(px, py) in Draw(s) ==>
      InDisk(s.radius, px - s.x, py - s.y) &&
      -(s.radius - 1) <= px - s.x <= s.radius - 1 && -(s.radius - 1) <= py - s.y <= s.radius - 1
  {
    CircleDrawSplits(s);
    forall c | c in Draw(s)[1..]
      ensures c.DrawPoint?
    {
      var k := RowOfCommand(s.x, s.y, false, Octant(s.radius), c);
    }
    forall px, py | DrawPoint(px, py) in Draw(s)
      ensures InDisk(s.radius, px - s.x, py - s.y)
      ensures -(s.radius - 1) <= px - s.x <= s.radius - 1 && -(s.radius - 1) <= py - s.y <= s.radius - 1
    {
      OutlinePointBounds(s, px, py);
    }
  }

  /** The outline is symmetric under the eight reflections of the square: if
      (cx + dx, cy + dy) is drawn, so are (cx + dy, cy + dx), (cx - dx, cy + dy)
      and (cx + dx, cy - dy), and hence all eight images. */
  lemma OutlineSymmetric(s: Shape)
    requires s.Circle? && !s.fill
    ensures forall px, py :: DrawPoint(px, py) in Draw(s) ==>
      DrawPoint(s.x + (py - s.y), s.y + (px - s.x)) in Draw(s) &&
      DrawPoint(s.x - (px - s.x), py) in Draw(s) &&
      DrawPoint(px, s.y - (py - s.y)) in Draw(s)
  {
    CircleDrawSplits(s);
    HeadedRowsSymmetric(Draw(s), s.color, s.x, s.y, s.fill, Octant(s.radius));
  }

  /** A colour command followed by outline rows is closed under the circle's mirror images. */
  lemma HeadedRowsSymmetric(d: seq<RenderCmd>, color: Color, cx: int, cy: int, fill: bool, os: seq<Offset>)
    requires !fill && d == [SetDrawColor(color)] + OctantsCommands(cx, cy, fill, os)
    ensures forall px, py :: DrawPoint(px, py) in d ==>
      DrawPoint(cx + (py - cy), cy + (px - cx)) in d &&
      DrawPoint(cx - (px - cx), py) in d &&
      DrawPoint(px, cy - (py - cy)) in d
  {
    forall px, py | DrawPoint(px, py) in d
      ensures DrawPoint(cx + (py - cy), cy + (px - cx)) in d
      ensures DrawPoint(cx - (px - cx), py) in d
      ensures DrawPoint(px, cy - (py - cy)) in d
    {
      assert DrawPoint(px, py) in OctantsCommands(cx, cy, fill, os);
      RowsImages(cx, cy, fill, os, px, py);
    }
  }

  /** The four lines the source draws for one octant offset. */
  lemma OctantLine(cx: int, cy: int, o: Offset, x1: int, y1: int, x2: int, y2: int)
    requires DrawLine(x1, y1, x2, y2) in OctantCommands(cx, cy, true, o)
    ensures y1 == y2 && x1 - cx == cx - x2
    ensures (x1 - cx) * (x1 - cx) + (y1 - cy) * (y1 - cy) == o.dx * o.dx + o.dy * o.dy
  {
  }

  /** A line drawn for an offset within b of the centre on each axis starts within
      b of the centre on each axis. */
  lemma OctantLineInSquare(cx: int, cy: int, o: Offset, x1: int, y1: int, x2: int, y2: int, b: int)
    requires DrawLine(x1, y1, x2, y2) in OctantCommands(cx, cy, true, o)
    requires -b <= o.dx <= b && -b <= o.dy <= b
    ensures -b <= x1 - cx <= b && -b <= y1 - cy <= b
  {
    var cmds := OctantCommands(cx, cy, true, o);
    var i :| 0 <= i < 4 && cmds[i] == DrawLine(x1, y1, x2, y2);
  }

  /** Where one drawn line of a filled circle lies. */
  lemma FilledLine(s: Shape, x1: int, y1: int, x2: int, y2: int)
    requires s.Circle? && s.fill
    requires DrawLine(x1, y1, x2, y2) in Draw(s)
    ensures y1 == y2 && x1 - s.x == s.x - x2 && InDisk(s.radius, x1 - s.x, y1 - s.y)
    ensures -(s.radius - 1) <= x1 - s.x <= s.radius - 1 && -(s.radius - 1) <= y1 - s.y <= s.radius - 1
  {
    CircleDrawSplits(s);
    var os := Octant(s.radius);
    var k := RowOfCommand(s.x, s.y, true, os, DrawLine(x1, y1, x2, y2));
    OctantLine(s.x, s.y, os[k], x1, y1, x2, y2);
    OctantRow(s.radius, k);
    OctantLineInSquare(s.x, s.y, os[k], x1, y1, x2, y2, s.radius - 1);
  }

  /** A filled circle issues only horizontal lines whose two ends mirror each other
      about the centre's column, and both ends lie in the closed disk of radius r
      and in the square |dx|, |dy| <= r - 1. */
  lemma FilledLinesMirrored(s: Shape)
    requires s.Circle? && s.fill
    ensures forall c :: c in Draw(s)[1..] ==> c.DrawLine?
    ensures forall x1, y1, x2, y2 :: DrawLine(x1, y1, x2, y2) in Draw(s) ==>
      y1 == y2 && x1 - s.x == s.x - x2 && InDisk(s.radius, x1 - s.x, y1 - s.y) &&
      -(s.radius - 1) <= x1 - s.x <= s.radius - 1 && -(s.radius - 1) <= y1 - s.y <= s.radius - 1
  {
    CircleDrawSplits(s);
    forall c | c in Draw(s)[1..]
      ensures c.DrawLine?
    {
      var k := RowOfCommand(s.x, s.y, true, Octant(s.radius), c);
    }
    forall x1, y1, x2, y2 | DrawLine(x1, y1, x2, y2) in Draw(s)
      ensures y1 == y2 && x1 - s.x == s.x - x2 && InDisk(s.radius, x1 - s.x, y1 - s.y)
      ensures -(s.radius - 1) <= x1 - s.x <= s.radius - 1 && -(s.radius - 1) <= y1 - s.y <= s.radius - 1
    {
      FilledLine(s, x1, y1, x2, y2);
    }
  }
}

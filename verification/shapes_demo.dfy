/** The main loop of fun_with_shapes.cpp: three shapes slide right across a
    640-pixel-wide window and wrap around to the left edge. Only the per-frame
    move-and-wrap update is modelled; clearing, drawing and presenting are
    renderer calls (their commands are `Raster.Draw`). */
module ShapesDemo {
  import opened SdlTypes
  import opened Shapes

  /** window.width() after `window.init(640, 480)`. */
  const WindowWidth: int := 640

  /** The row every shape is put back on when it wraps. */
  const Row: int := 240

  datatype Scene = Scene(circle: Shape, circle2: Shape, rect: Shape)

  /** The C++ types of the three variables: two circles and a rectangle. */
  predicate WellTyped(sc: Scene) {
    sc.circle.Circle? && sc.circle2.Circle? && sc.rect.Rectangle?
  }

  /** The shapes as the program creates them before its loop. */
  function InitialScene(): (sc: Scene)
    ensures WellTyped(sc)
    ensures sc.circle.x == 0 && sc.circle2.x == 0 && sc.rect.x == 0
    ensures sc.circle.y == Row && sc.circle2.y == Row && sc.rect.y == Row
    ensures sc.circle.radius == 100 && sc.circle2.radius == 50
    ensures sc.rect.width == 80 && sc.rect.height == 80
    ensures sc.circle.fill && sc.circle2.fill && !sc.rect.fill
    ensures sc.circle.color == Red && sc.circle2.color == Green && sc.rect.color == Blue
  {
    Scene(NewCircle(0, 240, 100, Red, true),
          NewCircle(0, 240, 50, Green, true),
          NewRectangle(0, 240, 80, 80, Blue, false))
  }

  /** One iteration's update: move every shape right (circle by 3, circle2 by 4,
      rect by 2), then wrap each shape that has left the window. circle2 wraps to
      minus the radius of `circle`, not its own, as the source writes it. */
  function Frame(sc: Scene): (next: Scene)
    requires WellTyped(sc)
    ensures WellTyped(next)
    ensures SameGeometry(sc.circle, next.circle) && SameGeometry(sc.circle2, next.circle2)
    ensures SameGeometry(sc.rect, next.rect)
    ensures next.circle.color == sc.circle.color && next.circle.fill == sc.circle.fill
    ensures next.circle2.color == sc.circle2.color && next.circle2.fill == sc.circle2.fill
    ensures next.rect.color == sc.rect.color && next.rect.fill == sc.rect.fill
  {
    var c1 := Move(sc.circle, sc.circle.x + 3, sc.circle.y);
    var c2 := Move(sc.circle2, sc.circle2.x + 4, sc.circle2.y);
    var rc := Move(sc.rect, sc.rect.x + 2, sc.rect.y);
    var c1' := if c1.x - c1.radius >= WindowWidth then Move(c1, 0 - c1.radius, 240) else c1;
    var c2' := if c2.x - c2.radius >= WindowWidth then Move(c2, 0 - c1'.radius, 240) else c2;
    var rc' := if rc.x >= WindowWidth then Move(rc, 0 - rc.width, 240) else rc;
    Scene(c1', c2', rc')
  }

  /** The wrap rules: after the advance, `circle` wraps to (-radius, 240) exactly
      when its left edge x - radius has reached the window width; circle2 likewise
      but to -circle.radius; `rect` wraps to (-width, 240) exactly when x has
      reached the window width. A shape that does not wrap keeps its row. */
  lemma FrameWrapRules(sc: Scene)
    requires WellTyped(sc)
    ensures var next := Frame(sc);
      var x1, x2, x3 := sc.circle.x + 3, sc.circle2.x + 4, sc.rect.x + 2;
      (x1 - sc.circle.radius >= WindowWidth ==> next.circle.x == -sc.circle.radius && next.circle.y == Row) &&
      (x1 - sc.circle.radius < WindowWidth ==> next.circle.x == x1 && next.circle.y == sc.circle.y) &&
      (x2 - sc.circle2.radius >= WindowWidth ==> next.circle2.x == -sc.circle.radius && next.circle2.y == Row) &&
      (x2 - sc.circle2.radius < WindowWidth ==> next.circle2.x == x2 && next.circle2.y == sc.circle2.y) &&
      (x3 >= WindowWidth ==> next.rect.x == -sc.rect.width && next.rect.y == Row) &&
      (x3 < WindowWidth ==> next.rect.x == x3 && next.rect.y == sc.rect.y)
  {
  }

  /** `n` iterations of the loop. */
  function Frames(sc: Scene, n: nat): (r: Scene)
    requires WellTyped(sc)
    ensures WellTyped(r)
    decreases n
  {
    if n == 0 then sc else Frame(Frames(sc, n - 1))
  }

  /** What holds of the scene at the top of every iteration: the shapes keep their
      kinds, sizes, colours and fill flags, all stay on row 240, and each one's x
      stays in the band it can reach: circle in [-100, 740) (so its left edge
      x - 100 is left of the window's right edge), circle2 in [-100, 690), and
      rect in [-80, 640). */
  ghost predicate SceneInv(sc: Scene) {
    var init := InitialScene();
    && WellTyped(sc)
    && SameGeometry(init.circle, sc.circle) && SameGeometry(init.circle2, sc.circle2)
    && SameGeometry(init.rect, sc.rect)
    && sc.circle.color == Red && sc.circle2.color == Green && sc.rect.color == Blue
    && sc.circle.fill && sc.circle2.fill && !sc.rect.fill
    && sc.circle.y == Row && sc.circle2.y == Row && sc.rect.y == Row
    && -100 <= sc.circle.x && sc.circle.x - 100 < WindowWidth
    && -100 <= sc.circle2.x && sc.circle2.x - 50 < WindowWidth
    && -80 <= sc.rect.x < WindowWidth
  }

  /** The invariant holds before the first iteration and every iteration keeps it. */
  lemma FramePreservesInv(sc: Scene)
    ensures SceneInv(InitialScene())
    ensures SceneInv(sc) ==> SceneInv(Frame(sc))
  {
    if SceneInv(sc) {
      FrameWrapRules(sc);
    }
  }

  /** Hence it holds after any number of iterations. */
  lemma {:induction false} FramesKeepInv(n: nat)
    ensures SceneInv(Frames(InitialScene(), n))
  {
    FramePreservesInv(InitialScene());
    if n > 0 {
      FramesKeepInv(n - 1);
      FramePreservesInv(Frames(InitialScene(), n - 1));
    }
  }

  /** Before their first wraps, after k iterations circle is at x = 3k, circle2 at
      4k and rect at 2k. */
  lemma {:induction false} BeforeFirstWrap(k: nat)
    ensures k <= 246 ==> Frames(InitialScene(), k).circle.x == 3 * k
    ensures k <= 172 ==> Frames(InitialScene(), k).circle2.x == 4 * k
    ensures k <= 319 ==> Frames(InitialScene(), k).rect.x == 2 * k
  {
    if k > 0 {
      BeforeFirstWrap(k - 1);
      FramesKeepInv(k - 1);
      FrameWrapRules(Frames(InitialScene(), k - 1));
    }
  }

  /** circle first wraps on iteration 247, the least k with 3k - 100 >= 640: until
      then it sits at 3k, left edge inside the window. */
  lemma CircleFirstWrap(k: nat)
    requires k <= 247
    ensures k < 247 ==> Frames(InitialScene(), k).circle.x == 3 * k && 3 * k - 100 < WindowWidth
    ensures k == 247 ==> Frames(InitialScene(), k).circle.x == -100
  {
    if k == 247 {
      BeforeFirstWrap(k - 1);
      FramesKeepInv(k - 1);
      FrameWrapRules(Frames(InitialScene(), k - 1));
    } else {
      BeforeFirstWrap(k);
    }
  }

  /** circle2 first wraps on iteration 173, the least k with 4k - 50 >= 640, and
      it wraps to x = -100, minus circle's radius rather than its own 50. */
  lemma Circle2FirstWrap(k: nat)
    requires k <= 173
    ensures k < 173 ==> Frames(InitialScene(), k).circle2.x == 4 * k && 4 * k - 50 < WindowWidth
    ensures k == 173 ==> Frames(InitialScene(), k).circle2.x == -100
  {
    if k == 173 {
      BeforeFirstWrap(k - 1);
      FramesKeepInv(k - 1);
      FrameWrapRules(Frames(InitialScene(), k - 1));
    } else {
      BeforeFirstWrap(k);
    }
  }

  /** rect first wraps on iteration 320, the least k with 2k >= 640, to x = -80. */
  lemma RectFirstWrap(k: nat)
    requires k <= 320
    ensures k < 320 ==> Frames(InitialScene(), k).rect.x == 2 * k && 2 * k < WindowWidth
    ensures k == 320 ==> Frames(InitialScene(), k).rect.x == -80
  {
    if k == 320 {
      BeforeFirstWrap(k - 1);
      FramesKeepInv(k - 1);
      FrameWrapRules(Frames(InitialScene(), k - 1));
    } else {
      BeforeFirstWrap(k);
    }
  }
}

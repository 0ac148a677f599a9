/** The main loop of textures_example.cpp: drain the event queue (quit, and the
    q/w/e/a keys that step the circle sprites' colour and alpha modulation), render
    the background, the four corner circle sprites and the walking stick figure,
    then advance the animation counters `frame`, `anim_it` and `anim_x`. */
module SpriteDemo {
  import opened SdlTypes
  import opened Textures

  /** `frame_denom`: the stick figure shows each of its frames for 17 iterations. */
  const FrameDenom: int := 17

  datatype Key = KeyQ | KeyW | KeyE | KeyA | OtherKey(code: int)

  datatype Event = QuitEvent | KeyDown(key: Key) | OtherEvent

  /** The modulation before any key: r = g = b = a = 255. */
  const InitialModulation: Color := Color(255, 255, 255, 255)

  /** The key switch: q, w, e and a add 32 (modulo 256) to r, g, b and a. */
  function OnKey(c: Color, k: Key): (d: Color)
    ensures d.r != c.r <==> k.KeyQ?
    ensures d.g != c.g <==> k.KeyW?
    ensures d.b != c.b <==> k.KeyE?
    ensures d.a != c.a <==> k.KeyA?
    ensures (d.r - c.r) % 256 == (if k.KeyQ? then 32 else 0)
    ensures (d.g - c.g) % 256 == (if k.KeyW? then 32 else 0)
    ensures (d.b - c.b) % 256 == (if k.KeyE? then 32 else 0)
    ensures (d.a - c.a) % 256 == (if k.KeyA? then 32 else 0)
  {
    match k
    case KeyQ => c.(r := AddUint8(c.r, 32))
    case KeyW => c.(g := AddUint8(c.g, 32))
    case KeyE => c.(b := AddUint8(c.b, 32))
    case KeyA => c.(a := AddUint8(c.a, 32))
    case OtherKey(_) => c
  }

  /** Key presses act on separate channels, so their order does not matter. */
  lemma OnKeyCommutes(c: Color, k1: Key, k2: Key)
    ensures OnKey(OnKey(c, k1), k2) == OnKey(OnKey(c, k2), k1)
  {
  }

  /** The channel a modulation key acts on. */
  function Channel(c: Color, k: Key): int
    requires !k.OtherKey?
  {
    match k
    case KeyQ => c.r
    case KeyW => c.g
    case KeyE => c.b
    case KeyA => c.a
  }

  /** A press adds 32 modulo 256 to its own channel and leaves the others. */
  lemma OnKeyChannel(c: Color, k: Key, j: Key)
    requires !j.OtherKey?
    ensures Channel(OnKey(c, k), j) == (Channel(c, j) + (if k == j then 32 else 0)) % 256
  {
  }

  lemma ModAdd(a: int, b: int)
    ensures (a % 256 + b) % 256 == (a + b) % 256
  {
    var q := a / 256;
    assert a == 256 * q + a % 256;
    assert a + b == 256 * q + (a % 256 + b);
  }

  /** Pressing key k n times. */
  function Presses(c: Color, k: Key, n: nat): Color
    decreases n
  {
    if n == 0 then c else OnKey(Presses(c, k, n - 1), k)
  }

  /** After n presses of a key its channel is the old value plus 32 n, modulo 256;
      the other channels are unchanged. */
  lemma {:induction false} PressesChannel(c: Color, k: Key, n: nat, j: Key)
    requires !j.OtherKey?
    ensures Channel(Presses(c, k, n), j) == (Channel(c, j) + (if k == j then 32 * n else 0)) % 256
    decreases n
  {
    if n > 0 {
      PressesChannel(c, k, n - 1, j);
      OnKeyChannel(Presses(c, k, n - 1), k, j);
      ModAdd(Channel(c, j) + (if k == j then 32 * (n - 1) else 0), if k == j then 32 else 0);
    }
  }

  /** Within one turn of the cycle, v + 32 n comes back to v only at n = 8. */
  lemma ChannelCycle(v: int, n: nat)
    requires 0 <= v < 256 && 1 <= n <= 8
    ensures (v + 32 * n) % 256 == v <==> n == 8
  {
    if v + 32 * n < 256 {
      assert (v + 32 * n) % 256 == v + 32 * n;
    } else if n < 8 {
      assert (v + 32 * n) % 256 == v + 32 * n - 256;
    } else {
      assert v + 32 * n == v + 256;
    }
  }

  /** Eight presses of a modulation key bring the colour back where it started
      (8 * 32 = 256); one to seven presses leave it changed. */
  lemma PressesCycle(c: Color, k: Key, n: nat)
    requires !k.OtherKey?
    requires 1 <= n <= 8
    ensures Presses(c, k, n) == c <==> n == 8
  {
    var p := Presses(c, k, n);
    PressesChannel(c, k, n, k);
    ChannelCycle(Channel(c, k), n);
    if n == 8 {
      PressesChannel(c, k, n, KeyQ);
      PressesChannel(c, k, n, KeyW);
      PressesChannel(c, k, n, KeyE);
      PressesChannel(c, k, n, KeyA);
      assert p.r == c.r && p.g == c.g && p.b == c.b && p.a == c.a;
    } else {
      assert Channel(p, k) != Channel(c, k);
    }
  }

  /** One event of the switch in the poll loop. */
  function HandleEvent(quit: bool, c: Color, e: Event): (r: (bool, Color))
    ensures r.0 <==> quit || e.QuitEvent?
    ensures e.KeyDown? ==> r.1 == OnKey(c, e.key)
    ensures !e.KeyDown? ==> r.1 == c
  {
    match e
    case QuitEvent => (true, c)
    case KeyDown(k) => (quit, OnKey(c, k))
    case OtherEvent => (quit, c)
  }

  /** The inner `while (SDL_PollEvent(&e))` loop: the queue is drained completely,
      a quit event sets the flag, and key presses are applied in order, including
      those queued after the quit. */
  function PollEvents(quit: bool, c: Color, events: seq<Event>): (r: (bool, Color))
    ensures r.0 <==> quit || QuitEvent in events
    decreases |events|
  {
    if |events| == 0 then (quit, c)
    else
      var h := HandleEvent(quit, c, events[0]);
      PollEvents(h.0, h.1, events[1..])
  }

  lemma HandleEventChannel(quit: bool, c: Color, e: Event, j: Key)
    requires !j.OtherKey?
    ensures Channel(HandleEvent(quit, c, e).1, j) == (Channel(c, j) + (if e == KeyDown(j) then 32 else 0)) % 256
  {
    if e.KeyDown? {
      OnKeyChannel(c, e.key, j);
    }
  }

  lemma CountFirst(events: seq<Event>, x: Event)
    requires |events| > 0
    ensures multiset(events)[x] == (if events[0] == x then 1 else 0) + multiset(events[1..])[x]
  {
    assert events == [events[0]] + events[1..];
  }

  /** After draining a queue each channel has moved by 32 per press of its key,
      modulo 256, whatever else the queue held and in whatever order. */
  lemma {:induction false} PollEventsChannel(quit: bool, c: Color, events: seq<Event>, j: Key)
    requires !j.OtherKey?
    ensures Channel(PollEvents(quit, c, events).1, j) ==
      (Channel(c, j) + 32 * multiset(events)[KeyDown(j)]) % 256
    decreases |events|
  {
    if |events| > 0 {
      var h := HandleEvent(quit, c, events[0]);
      var b := if events[0] == KeyDown(j) then 32 else 0;
      var n := multiset(events[1..])[KeyDown(j)];
      PollEventsChannel(h.0, h.1, events[1..], j);
      HandleEventChannel(quit, c, events[0], j);
      CountFirst(events, KeyDown(j));
      ModAdd(Channel(c, j) + b, 32 * n);
      assert 32 * multiset(events)[KeyDown(j)] == b + 32 * n;
    }
  }

  /** PollEventsChannel for all four modulation keys at once. */
  lemma PollEventsChannels(quit: bool, c: Color, events: seq<Event>)
    ensures forall j: Key :: !j.OtherKey? ==>
      Channel(PollEvents(quit, c, events).1, j) == (Channel(c, j) + 32 * multiset(events)[KeyDown(j)]) % 256
  {
    forall j: Key | !j.OtherKey?
      ensures Channel(PollEvents(quit, c, events).1, j) ==
        (Channel(c, j) + 32 * multiset(events)[KeyDown(j)]) % 256
    {
      PollEventsChannel(quit, c, events, j);
    }
  }

  // ---------------------------------------------------------------------------
  // Walking animation

  /** The counters `frame`, `anim_x` and `anim_it`. */
  datatype Anim = Anim(frame: int, animX: int, animIt: int)

  const InitialAnim: Anim := Anim(0, 0, 0)

  /** The stick clip shown this iteration: `frame / frame_denom`. */
  function ClipIndex(s: Anim): int {
    CDiv(s.frame, FrameDenom)
  }

  /** The counter update at the end of an iteration; `stepW` is
      gStickSpriteClips[0].w, how far the figure moves each time `anim_it` wraps.
      Each counter either advances or resets, and anim_x moves only on the pass
      where anim_it reaches 17. */
  function AnimStep(s: Anim, stepW: int): (t: Anim)
    ensures t.frame == 0 || t.frame == s.frame + 1
    ensures s.frame >= 0 ==> (t.frame == 0 <==> s.frame + 1 >= FrameDenom * WalkingAnimationFrames)
    ensures t.animIt == 0 || t.animIt == s.animIt + 1
    ensures s.animIt >= 0 ==> (t.animIt == 0 <==> s.animIt + 1 == FrameDenom)
    ensures t.animX != s.animX ==> s.animIt + 1 == FrameDenom
    ensures t.animX == 0 || t.animX == s.animX || t.animX == s.animX + stepW
  {
    FrameWraps(s.frame + 1);
    var frame := s.frame + 1;
    var it := s.animIt + 1;
    var frame' := if CDiv(frame, FrameDenom) >= WalkingAnimationFrames then 0 else frame;
    if it == FrameDenom then
      var x := s.animX + stepW;
      var x' := if x >= ScreenWidth + 2 * stepW then 0 else x;
      Anim(frame', x', 0)
    else
      Anim(frame', s.animX, it)
  }

  /** What holds at the top of every iteration for a stick-clip width w >= 0:
      frame in [0, 68), anim_it == frame mod 17, and anim_x a multiple of w in
      [0, 640 + 2 * w) (so always 0 when w is 0, as with the zeroed clip table). */
  ghost predicate AnimInv(s: Anim, w: int) {
    && 0 <= s.frame < FrameDenom * WalkingAnimationFrames
    && s.animIt == s.frame % FrameDenom
    && 0 <= s.animX < ScreenWidth + 2 * w
    && (w == 0 ==> s.animX == 0)
    && (w > 0 ==> s.animX % w == 0)
  }

  /** frame / 17 reaches the number of animation frames exactly at 68. */
  lemma FrameWraps(f: int)
    ensures f >= 0 ==> (CDiv(f, FrameDenom) >= WalkingAnimationFrames <==> f >= FrameDenom * WalkingAnimationFrames)
  {
  }

  /** Adding w to a multiple of w gives a multiple of w. */
  lemma MultipleStep(a: int, w: int)
    requires w > 0 && a % w == 0
    ensures (a + w) % w == 0
  {
    var q, r := (a + w) / w, (a + w) % w;
    assert a + w == w * q + r && 0 <= r < w;
    assert a == w * (a / w);
    var d := a / w + 1 - q;
    assert w * d == r by {
      assert w * d == w * (a / w) + w - w * q;
    }
    MulBounds(w, d);
  }

  lemma MulBounds(w: int, d: int)
    requires w > 0
    ensures d >= 1 ==> w * d >= w
    ensures d <= -1 ==> w * d <= -w
  {
    if d >= 1 {
      assert w * d == w * (d - 1) + w;
    } else if d <= -1 {
      assert w * d == -(w * (-d));
    }
  }

  /** The invariant holds at the start, every update keeps it, and under it the
      clip index frame / 17 is inside the four-entry clip table. */
  lemma {:induction false} AnimStepKeepsInv(s: Anim, w: int)
    requires w >= 0
    ensures AnimInv(InitialAnim, w)
    ensures AnimInv(s, w) ==> AnimInv(AnimStep(s, w), w)
    ensures AnimInv(s, w) ==> 0 <= ClipIndex(s) < WalkingAnimationFrames
  {
    if AnimInv(s, w) && w > 0 && s.animIt + 1 == FrameDenom {
      MultipleStep(s.animX, w);
    }
  }

  /** With the loaded 64-pixel stick clips anim_x runs through 0, 64, ..., 704,
      advances only when anim_it wraps, and resets to 0 exactly from 704, the
      step that would reach 640 + 2 * 64. */
  lemma AnimX64(s: Anim)
    requires AnimInv(s, 64)
    ensures s.animX % 64 == 0 && 0 <= s.animX <= 704
    ensures s.animIt == FrameDenom - 1 ==>
      AnimStep(s, 64).animX == (if s.animX == 704 then 0 else s.animX + 64)
    ensures s.animIt != FrameDenom - 1 ==> AnimStep(s, 64).animX == s.animX
  {
  }

  // ---------------------------------------------------------------------------
  // One iteration of the loop

  /** The commands one iteration issues: clear to white, the background, the
      modulation of the circle sprites, the four corner sprites, and the stick
      figure's current frame at (640 - anim_x, 480 - clip height). The corner
      sprites are flush with their corners, whatever the clip sizes. */
  function RenderFrame(m: Media, c: Color, s: Anim): (cmds: seq<RenderCmd>)
    requires |m.circleClips| == 4 && |m.stickClips| == 4
    requires 0 <= ClipIndex(s) < 4
    ensures |cmds| == 10 && cmds[0] == SetDrawColor(White) && cmds[1] == Clear
    ensures cmds[2] == Copy(m.background.handle, None, Rect(0, 0, m.background.width, m.background.height))
    ensures cmds[3] == ColorMod(m.circles.handle, c.r, c.g, c.b) && cmds[4] == AlphaMod(m.circles.handle, c.a)
    ensures forall i :: 5 <= i < 9 ==>
      cmds[i].Copy? && cmds[i].texture == m.circles.handle && cmds[i].src == Some(m.circleClips[i - 5])
    ensures cmds[5].dst.x == 0 && cmds[5].dst.y == 0
    ensures cmds[6].dst.x + cmds[6].dst.w == ScreenWidth && cmds[6].dst.y == 0
    ensures cmds[7].dst.x == 0 && cmds[7].dst.y + cmds[7].dst.h == ScreenHeight
    ensures cmds[8].dst.x + cmds[8].dst.w == ScreenWidth && cmds[8].dst.y + cmds[8].dst.h == ScreenHeight
    ensures cmds[9].Copy? && cmds[9].texture == m.stick.handle
    ensures cmds[9].src == Some(m.stickClips[ClipIndex(s)])
    ensures cmds[9].dst.x == ScreenWidth - s.animX && cmds[9].dst.y == ScreenHeight - m.stickClips[0].h
  {
    var clips := m.circleClips;
    [ SetDrawColor(White), Clear,
      Render(m.background, 0, 0, None),
      ColorMod(m.circles.handle, c.r, c.g, c.b),
      AlphaMod(m.circles.handle, c.a),
      Render(m.circles, 0, 0, Some(clips[0])),
      Render(m.circles, ScreenWidth - clips[1].w, 0, Some(clips[1])),
      Render(m.circles, 0, ScreenHeight - clips[2].h, Some(clips[2])),
      Render(m.circles, ScreenWidth - clips[3].w, ScreenHeight - clips[3].h, Some(clips[3])),
      Render(m.stick, ScreenWidth - s.animX, ScreenHeight - m.stickClips[0].h,
             Some(m.stickClips[ClipIndex(s)])) ]
  }

  /** With the sprite sheets loaded, each corner sprite is drawn 100 x 100 in its own
      corner of the 640 x 480 screen, entirely on screen; the stick figure stands
      on the bottom edge, 64 x 205, showing clip frame / 17, at an x in [-64, 640]. */
  lemma RenderFrameLayout(m: Media, c: Color, s: Anim)
    requires MediaReady(m) && AnimInv(s, 64)
    ensures 0 <= ClipIndex(s) < 4
    ensures var cmds := RenderFrame(m, c, s);
      var screen := Rect(0, 0, ScreenWidth, ScreenHeight);
      && cmds[5].dst == Rect(0, 0, 100, 100) && cmds[6].dst == Rect(540, 0, 100, 100)
      && cmds[7].dst == Rect(0, 380, 100, 100) && cmds[8].dst == Rect(540, 380, 100, 100)
      && (forall i :: 5 <= i < 9 ==> Inside(cmds[i].dst, screen))
      && cmds[9].src == Some(StickSheetClips[ClipIndex(s)])
      && cmds[9].dst.y + cmds[9].dst.h == ScreenHeight && cmds[9].dst.w == 64
      && -64 <= cmds[9].dst.x <= ScreenWidth
  {
    AnimStepKeepsInv(s, 64);
  }

  /** What the loop body reads from the media: four clips in each table, and a
      stick-clip width that is not negative. `loadMedia` as written leaves the
      media like this whenever it reports success. */
  predicate LoopReady(m: Media) {
    |m.circleClips| == 4 && |m.stickClips| == 4 && m.stickClips[0].w >= 0
  }

  /** gStickSpriteClips[0].w, the distance the stick figure walks per step. */
  function StickWidth(m: Media): int
    requires LoopReady(m)
  {
    m.stickClips[0].w
  }

  datatype LoopState = LoopState(quit: bool, modulation: Color, anim: Anim)

  /** One pass of `while (!quit)`: drain the events, render, advance the counters.
      A quit seen in this pass still lets the pass render and advance. The frame
      is drawn with the modulation the pass's key presses produced and with the
      counters as they were at the top of the pass; only then do they advance. */
  function LoopIteration(m: Media, s: LoopState, events: seq<Event>): (r: (LoopState, seq<RenderCmd>))
    requires LoopReady(m) && AnimInv(s.anim, StickWidth(m))
    ensures AnimInv(r.0.anim, StickWidth(m))
    ensures r.0.quit <==> s.quit || QuitEvent in events
    ensures forall j: Key :: !j.OtherKey? ==>
      Channel(r.0.modulation, j) == (Channel(s.modulation, j) + 32 * multiset(events)[KeyDown(j)]) % 256
    ensures r.0.anim == AnimStep(s.anim, StickWidth(m))
    ensures |r.1| == 10 && r.1[9].Copy? && r.1[9].texture == m.stick.handle
    ensures r.1[3] == ColorMod(m.circles.handle, r.0.modulation.r, r.0.modulation.g, r.0.modulation.b)
    ensures r.1[4] == AlphaMod(m.circles.handle, r.0.modulation.a)
    ensures 0 <= ClipIndex(s.anim) < 4 && r.1[9].src == Some(m.stickClips[ClipIndex(s.anim)])
    ensures r.1 == RenderFrame(m, r.0.modulation, s.anim)
  {
    AnimStepKeepsInv(s.anim, StickWidth(m));
    PollEventsChannels(s.quit, s.modulation, events);
    var (quit, c) := PollEvents(s.quit, s.modulation, events);
    var cmds := RenderFrame(m, c, s.anim);
    (LoopState(quit, c, AnimStep(s.anim, StickWidth(m))), cmds)
  }

  /** The program up to its loop as written: `quit = !init_sdl()`, then, if SDL
      came up, `quit = !loadMedia()`. The loop is entered even when the
      stick-figure image is missing; then its clip table is all zero. */
  function StartupAsWritten(sdlReady: bool, bg: LoadOutcome, circles: LoadOutcome, stick: LoadOutcome): (r: (Media, LoopState))
    ensures !r.1.quit <==> sdlReady && bg.Loaded? && circles.Loaded?
    ensures !r.1.quit ==> LoopReady(r.0) && AnimInv(r.1.anim, StickWidth(r.0))
    ensures !r.1.quit ==> r.0.circleClips == CircleSheetClips
    ensures !r.1.quit ==> (r.0.stickClips == StickSheetClips <==> stick.Loaded?)
    ensures !r.1.quit && !stick.Loaded? ==> r.0.stick.handle.NoTexture? && r.0.stickClips == ZeroClips
  {
    AnimStepKeepsInv(InitialAnim, 0);
    AnimStepKeepsInv(InitialAnim, 64);
    if !sdlReady then (InitialMedia, LoopState(true, InitialModulation, InitialAnim))
    else
      var (m, ok) := LoadMedia(InitialMedia, bg, circles, stick);
      (m, LoopState(!ok, InitialModulation, InitialAnim))
  }

  /** The same start-up with the corrected check of the stick-figure image: it
      agrees with the program as written whenever that image loads, refuses to
      enter the loop otherwise, and enters it only with every texture ready. */
  function Startup(sdlReady: bool, bg: LoadOutcome, circles: LoadOutcome, stick: LoadOutcome): (r: (Media, LoopState))
    ensures stick.Loaded? ==> r == StartupAsWritten(sdlReady, bg, circles, stick)
    ensures !stick.Loaded? ==> r.1.quit
    ensures !r.1.quit <==> sdlReady && bg.Loaded? && circles.Loaded? && stick.Loaded?
    ensures !r.1.quit ==> MediaReady(r.0) && LoopReady(r.0) && StickWidth(r.0) == 64 && AnimInv(r.1.anim, 64)
  {
    AnimStepKeepsInv(InitialAnim, 64);
    if !sdlReady then (InitialMedia, LoopState(true, InitialModulation, InitialAnim))
    else
      var (m, ok) := LoadMediaChecked(InitialMedia, bg, circles, stick);
      LoadMediaCheckedSuccess(InitialMedia, bg, circles, stick);
      (m, LoopState(!ok, InitialModulation, InitialAnim))
  }

  /** What the program as written does when only the stick-figure image is
      missing: it enters the loop, and every pass copies from the NULL texture
      the all-zero clip to a 0 x 0 quad at (640, 480), the figure never moving. */
  lemma StickMissingLoop(events: seq<Event>, s: Anim)
    requires AnimInv(s, 0)
    ensures var (m, st) := StartupAsWritten(true, Loaded(1, 640, 480), Loaded(2, 200, 200), ImageMissing);
      && !st.quit && StickWidth(m) == 0
      && var (next, cmds) := LoopIteration(m, st.(anim := s), events);
      && cmds[9] == Copy(NoTexture, Some(Rect(0, 0, 0, 0)), Rect(ScreenWidth, ScreenHeight, 0, 0))
      && next.anim.animX == 0
  {
    AnimStepKeepsInv(s, 0);
  }

  /** No batch holds a quit event. */
  predicate QuitFree(batches: seq<seq<Event>>) {
    forall i :: 0 <= i < |batches| ==> QuitEvent !in batches[i]
  }

  /** The loop run over a sequence of event batches, one batch per pass, stopping
      once `quit` is set; returns the final state and every command issued. */
  function Run(m: Media, s: LoopState, batches: seq<seq<Event>>): (r: (LoopState, seq<RenderCmd>))
    requires LoopReady(m) && AnimInv(s.anim, StickWidth(m))
    ensures AnimInv(r.0.anim, StickWidth(m))
    ensures |r.1| % 10 == 0 && |r.1| <= 10 * |batches|
    ensures s.quit ==> r == (s, [])
    ensures |batches| > 0 && !s.quit ==> |r.1| >= 10
    decreases |batches|
  {
    if s.quit || |batches| == 0 then (s, [])
    else
      var pass := LoopIteration(m, s, batches[0]);
      var rest := Run(m, pass.0, batches[1..]);
      var cmds := pass.1 + rest.1;
      PassAppended(|pass.1|, |rest.1|);
      (rest.0, cmds)
  }

  /** One more pass of ten commands keeps the count a multiple of ten. */
  lemma PassAppended(a: nat, n: nat)
    requires a == 10 && n % 10 == 0
    ensures (a + n) % 10 == 0
  {
    assert a + n == 10 * (n / 10 + 1);
  }

  /** Without a quit event every batch gets its pass and quit stays clear; a quit
      in the first batch ends the loop after that one pass. */
  lemma {:induction false} RunPasses(m: Media, s: LoopState, batches: seq<seq<Event>>)
    requires LoopReady(m) && AnimInv(s.anim, StickWidth(m))
    ensures !s.quit && QuitFree(batches) ==>
      |Run(m, s, batches).1| == 10 * |batches| && !Run(m, s, batches).0.quit
    ensures !s.quit && |batches| > 0 && QuitEvent in batches[0] ==>
      |Run(m, s, batches).1| == 10 && Run(m, s, batches).0.quit
    decreases |batches|
  {
    if !s.quit && |batches| > 0 {
      var s' := LoopIteration(m, s, batches[0]).0;
      assert QuitFree(batches) ==> QuitFree(batches[1..]) by {
        if QuitFree(batches) {
          forall i | 0 <= i < |batches| - 1
            ensures QuitEvent !in batches[1..][i]
          {
            assert batches[1..][i] == batches[i + 1];
          }
        }
      }
      RunPasses(m, s', batches[1..]);
    }
  }

  /** The loop stops exactly after the pass of the first batch holding a quit
      event: if batch i is the first such, i + 1 passes run and quit is set. */
  lemma {:induction false} RunUntilQuit(m: Media, s: LoopState, batches: seq<seq<Event>>, i: nat)
    requires LoopReady(m) && AnimInv(s.anim, StickWidth(m)) && !s.quit
    requires i < |batches| && QuitEvent in batches[i] && QuitFree(batches[..i])
    ensures Run(m, s, batches).0.quit && |Run(m, s, batches).1| == 10 * (i + 1)
    decreases i
  {
    if i > 0 {
      assert QuitEvent !in batches[0] by {
        assert batches[..i][0] == batches[0];
      }
      var s' := LoopIteration(m, s, batches[0]).0;
      assert batches[1..][..i - 1] == batches[..i][1..];
      RunUntilQuit(m, s', batches[1..], i - 1);
    }
  }
}

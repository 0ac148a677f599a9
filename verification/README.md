# SDL2 shape and sprite demos, modelled in Dafny

This project models the integer core of a small set of SDL2 demo programs. The
SDL renderer becomes a list of render commands (`SdlTypes.RenderCmd`: set draw
colour, clear, point, line, rectangle, filled rectangle, texture copy, colour
and alpha modulation). Every drawing or update routine becomes a pure function,
or a method that returns the commands it would issue.

- `SdlTypes` holds Uint8 channels with their 8-bit wrap, `SDL_Color`,
  `SDL_Rect`, texture handles and the command type.
- `Shapes` holds the `Polygon` hierarchy of `utils.hpp` (`Circle`,
  `Rectangle`, `Point`) as one tagged datatype, with its constructors, `move`
  and `setColor`.
- `Raster` holds the `draw` members of `utils.cpp`.
  - `Circle::draw`, the midpoint-circle loop, is `Raster.DrawCircle`, a method
    that follows the C++ loop over `x, y, tx, ty, error` statement by statement.
  - It is proved equal to a declarative reference, `Raster.Draw`. Row `y` of the
    first octant is the outermost column `t <= r - 1` with `t*t + y*y <= r*r`.
    The rows run while the diagonal point `(y, y)` is still in the disk. Each
    row is mirrored eight ways as points, or as four horizontal lines when the
    circle is filled.
  - The loop invariant behind the proof is `error == x*x + y*y - r*r`. At the
    loop head, `error <= 0` holds whenever `x >= y`, so the `++y` branch is
    taken on every iteration.
- `Walker` holds `RandomWalker` of `main.cpp`. Each `rand()` result is a
  parameter `roll`; the model reduces it `% 4` or `% 8` itself.
- `ShapesDemo` holds the move-and-wrap update of `fun_with_shapes.cpp`.
- `Textures` holds `LTexture` of `textures_example.cpp` (`free`,
  `loadFromFile`, `render`), the clip tables and `loadMedia`. Each image load
  becomes an outcome parameter.
- `SpriteDemo` holds the main loop of `textures_example.cpp`:
  - the q/w/e/a colour-modulation keys;
  - draining the event queue;
  - the commands of one frame;
  - the walking-animation counters `frame`, `anim_it` and `anim_x`.
  - start-up and the loop, both as written (`StartupAsWritten`, where a missing
    stick image still enters the loop) and with `loadMedia` corrected (`Startup`).

Positions and sizes are unbounded integers. Uint8 arithmetic is written out
modulo 256. C's truncating `/` is `SdlTypes.CDiv`.

## Model

| member | source | states |
|---|---|---|
| SdlTypes.CDiv | sdl_tutorials/textures_example.cpp:306 | C's `/` on a positive divisor: the remainder a − q·b lies in [0, b) for a >= 0 and in (−b, 0] for a < 0, which is truncation toward zero |
| Shapes.NewCircle | src/utils.hpp:51-52 | the five-argument circle has the given position, radius, colour and fill flag |
| Shapes.NewOutlineCircle | src/utils.hpp:53-54 | the four-argument circle is the five-argument one with fill false |
| Shapes.NewRectangle | src/utils.hpp:64-65 | the six-argument rectangle has the given position, size, colour and fill flag |
| Shapes.NewOutlineRectangle | src/utils.hpp:66-67 | the five-argument rectangle is the six-argument one with fill false |
| Shapes.NewPoint | src/utils.hpp:75-76 | a point has the given position and colour, and its fill flag keeps the default false |
| Shapes.Move | src/utils.hpp:42 | the position becomes exactly (x, y); colour, fill flag, kind and size are unchanged |
| Shapes.SetColor | src/utils.hpp:43 | only the colour changes |
| Shapes.ShortConstructorsDoNotFill | src/utils.hpp:34-39 | every constructor without a fill argument leaves the fill flag false |
| Shapes.MoveLastWins | src/utils.hpp:40-42 | the position reads back as the last move; moving to the current position changes nothing |
| Shapes.MoveSetColorCommute | src/utils.hpp:42-43 | move and setColor commute |
| Shapes.UpdatesKeepGeometry | src/utils.hpp:47-71 | neither move nor setColor changes a radius, width or height |
| Raster.OctantCharacterization | src/utils.cpp:74-110 | reference octant: row i has dy = i; dx is the outermost in-disk column <= r - 1 and dx >= i; row 0 is (r − 1, 0), where the loop starts; rows run exactly while (i, i) is in the disk; r <= 0 gives no rows |
| Raster.MidpointStart | src/utils.cpp:74-79 | the loop's initial x, y and error satisfy the midpoint invariant (error = x² + y² − r², x is row y's column) |
| Raster.MidpointStep | src/utils.cpp:100-109 | one pass of the two error updates keeps the midpoint invariant, with y advanced by one |
| Raster.DrawCircle | src/utils.cpp:73-111 | the midpoint loop (with tx = 2(r−1−x)+1, ty = 2y+1 kept, and x − y decreasing) issues exactly the reference command list: colour, then each octant row mirrored |
| Raster.OctantsCommandsLength | src/utils.cpp:84-98 | each loop pass issues 4 lines when filled and 8 points otherwise |
| Raster.Draw | src/utils.cpp:115-130 | every shape's drawing starts with its colour; a rectangle then issues one command, FillRect exactly when filled, of {x, y, width, height}; a point issues one DrawPoint at (x, y) |
| Raster.DrawShape | src/utils.cpp:73-130 | the colour is set first and never again; a rectangle is one FillRect or DrawRect of {x, y, w, h}; a point is one DrawPoint at (x, y); a circle issues 1 + (4 or 8) × rows commands; radius <= 0 draws nothing |
| Raster.OctantPoint | src/utils.cpp:90-97 | each of the 8 points of a pass is at distance² dx² + dy² from the centre, and its axis swap and both axis reflections are among the 8 |
| Raster.OutlinePointsInDisk | src/utils.cpp:75-97 | an outline circle issues only points; each lies in the closed disk of radius r and within r − 1 of the centre on each axis |
| Raster.OutlineSymmetric | src/utils.cpp:90-97 | the drawn outline is closed under swapping the axes and negating either axis about the centre |
| Raster.OctantLine | src/utils.cpp:85-88 | each of the 4 lines of a pass is horizontal, with ends mirrored about the centre's column |
| Raster.FilledLinesMirrored | src/utils.cpp:85-88 | a filled circle issues only horizontal lines whose ends mirror about the centre's column and lie in the disk and within r − 1 of the centre on each axis |
| Walker.NewRandomWalker | src/main.cpp:9 | a walker is an outline circle of radius 2 at the given position and colour |
| Walker.Step | src/main.cpp:11-22 | exactly one coordinate changes (for m ≠ 0) by ±m; radius, colour and fill flag are kept |
| Walker.Step8 | src/main.cpp:24-47 | each delta component is in {m, −m, 0}, the walker always moves when m ≠ 0, and radius, colour and fill are kept |
| Walker.PerlinStep | src/main.cpp:48-51 | the walker is unchanged |
| Walker.StepDirections | src/main.cpp:13-21 | choice 0 moves +x, 1 −x, 2 +y, 3 −y, each by the magnitude |
| Walker.Step8Directions | src/main.cpp:26-46 | choice k moves by the k-th of the eight grid directions times m; the diagonals move both axes by the full m |
| Walker.Step8ExtendsStep | src/main.cpp:26-33 | step8's choices 0-3 take the same move as step |
| Walker.Directions8Distinct | src/main.cpp:24-47 | the eight directions are distinct, non-zero and have components in {−1, 0, 1} |
| Walker.Directions8Cover | src/main.cpp:34-46 | every one of the eight neighbours of a grid cell is some choice's direction |
| Walker.Step8OutcomesDistinct | src/main.cpp:24-47 | for m ≠ 0 the eight step8 results are pairwise distinct |
| Walker.StepLength | src/main.cpp:11-22 | one step covers Manhattan distance exactly abs(m) |
| Walker.WalkKeepsShape | src/main.cpp:90 | repeated steps keep radius, colour and fill flag |
| Walker.WalkBounds | src/main.cpp:90 | after n steps the Manhattan distance from the start is at most n·abs(m) and has the same parity |
| Walker.InitialWalkers | src/main.cpp:67-75 | three radius-2 outline walkers with alpha 100 (the one named green drawn blue, the one named blue drawn green); the first two share the middle row at a third and two thirds of the width, rounded down; the third is at half the width and a third of the height |
| Walker.InitialWalkersIn640x480 | src/main.cpp:67-75 | in a 640×480 window the walkers start at (213, 240), (426, 240) and (320, 160) as radius-2 outline circles with alpha 100 |
| Walker.WalkersFrame | src/main.cpp:90-92 | per frame the step walker moves distance 2 and the step8 walkers 2 or 4; shapes and colours are kept |
| ShapesDemo.InitialScene | src/fun_with_shapes.cpp:20-22 | the scene starts with all three shapes at (0, 240): a filled red circle of radius 100, a filled green circle of radius 50, and an outline blue 80×80 rectangle |
| ShapesDemo.Frame | src/fun_with_shapes.cpp:37-49 | a frame keeps each shape's kind, size, colour and fill flag |
| ShapesDemo.FrameWrapRules | src/fun_with_shapes.cpp:37-49 | after advancing by 3/4/2, circle wraps to (−radius, 240) exactly when x − radius >= 640; circle2 wraps to −circle.radius; rect wraps to (−width, 240) exactly when x >= 640; otherwise the row is kept |
| ShapesDemo.FramePreservesInv | src/fun_with_shapes.cpp:20-49 | the scene invariant holds initially and each frame keeps it: all shapes on row 240, −100 <= circle.x < 740, −100 <= circle2.x < 690, −80 <= rect.x < 640 |
| ShapesDemo.FramesKeepInv | src/fun_with_shapes.cpp:25-49 | the invariant holds after any number of frames |
| ShapesDemo.BeforeFirstWrap | src/fun_with_shapes.cpp:37-39 | before any wrap, after k frames the x positions are 3k, 4k and 2k |
| ShapesDemo.CircleFirstWrap | src/fun_with_shapes.cpp:41-42 | circle first wraps on frame 247, to −100 |
| ShapesDemo.Circle2FirstWrap | src/fun_with_shapes.cpp:44-45 | circle2 first wraps on frame 173, to −100 (circle's radius, not its own 50) |
| ShapesDemo.RectFirstWrap | src/fun_with_shapes.cpp:47-48 | rect first wraps on frame 320, to −80 |
| Textures.Free | sdl_tutorials/textures_example.cpp:54-61 | the handle is NULL afterwards; a NULL texture is left as it is; a live one becomes the empty 0×0 texture |
| Textures.FreeIdempotent | sdl_tutorials/textures_example.cpp:54-61 | freeing twice is freeing once |
| Textures.LoadFromFile | sdl_tutorials/textures_example.cpp:62-91 | success exactly when the handle is live, which is exactly when both SDL calls succeeded; then the size is the image's, otherwise the texture is the freed old one |
| Textures.Render | sdl_tutorials/textures_example.cpp:92-101 | one copy of the clip (or the whole texture) to a quad at (x, y) sized by the clip when there is one, else by the texture |
| Textures.CircleClipsTileSheet | sdl_tutorials/textures_example.cpp:191-201 | the four circle clips are 100×100 quadrants inside the 200×200 sheet, and every sheet pixel lies in exactly one |
| Textures.StickClipsLayout | sdl_tutorials/textures_example.cpp:208-218 | stick clip i is at (64i, 0), 64×205, for the 4 animation frames |
| Textures.LoadMedia | sdl_tutorials/textures_example.cpp:175-222 | as written: success iff the background and circle images load; each clip table is filled only when its image loads |
| Textures.LoadMediaIgnoresStickFailure | sdl_tutorials/textures_example.cpp:204-206 | with the stick image missing, loadMedia still reports success, with a NULL stick texture and zero clips |
| Textures.LoadMediaChecked | sdl_tutorials/textures_example.cpp:175-222 | corrected: same media, success iff all three images load |
| Textures.LoadMediaCheckedSuccess | sdl_tutorials/textures_example.cpp:175-222 | corrected success holds exactly when all three textures are live and both clip tables hold the sheet layouts |
| SpriteDemo.OnKey | sdl_tutorials/textures_example.cpp:255-270 | q/w/e/a add 32 modulo 256 to r/g/b/a; a channel changes exactly when its key is pressed; other keys change nothing |
| SpriteDemo.OnKeyCommutes | sdl_tutorials/textures_example.cpp:255-270 | the order of two key presses does not matter |
| SpriteDemo.OnKeyChannel | sdl_tutorials/textures_example.cpp:255-270 | a key adds 32 modulo 256 to its own channel and leaves the others |
| SpriteDemo.PressesChannel | sdl_tutorials/textures_example.cpp:255-270 | after n presses of a key its channel is old + 32n modulo 256 and the other channels are unchanged |
| SpriteDemo.PressesCycle | sdl_tutorials/textures_example.cpp:255-270 | eight presses of a modulation key restore the colour; one to seven do not |
| SpriteDemo.HandleEvent | sdl_tutorials/textures_example.cpp:252-270 | a quit event sets quit; a key-down applies that key to the modulation; any other event changes nothing |
| SpriteDemo.PollEvents | sdl_tutorials/textures_example.cpp:251-273 | after draining the queue, quit is set iff it was set or the queue held a quit event |
| SpriteDemo.PollEventsChannel | sdl_tutorials/textures_example.cpp:251-273 | after draining the queue each channel moved by 32 per press of its key, modulo 256, whatever else was queued |
| SpriteDemo.AnimStep | sdl_tutorials/textures_example.cpp:304-315 | each counter advances by one or resets to 0; frame resets exactly when it reaches 68; anim_it resets exactly when it reaches 17; anim_x moves only on that pass, by the stick width or back to 0 |
| SpriteDemo.AnimStepKeepsInv | sdl_tutorials/textures_example.cpp:234-235 | for any stick width w >= 0, from (0, 0, 0) the counters keep 0 <= frame < 68, anim_it == frame mod 17, and anim_x a multiple of w in [0, 640 + 2w) (always 0 when w is 0); the clip index frame / 17 stays in [0, 4) |
| SpriteDemo.AnimX64 | sdl_tutorials/textures_example.cpp:309-315 | with 64-pixel clips anim_x is one of 0, 64, ..., 704; it advances by 64 only when anim_it wraps and resets to 0 exactly from 704 |
| SpriteDemo.RenderFrame | sdl_tutorials/textures_example.cpp:275-303 | ten commands: clear to white, the background at its own size at (0, 0), the colour and alpha modulation, the four circle clips flush with the four screen corners, then the stick clip frame / 17 at (640 − anim_x, 480 − clip height) |
| SpriteDemo.RenderFrameLayout | sdl_tutorials/textures_example.cpp:285-303 | with the sheets loaded, the four circle sprites are 100×100 in the four corners, inside the 640×480 screen; the stick figure is 64 wide, uses clip frame / 17 and stands on the bottom edge with x in [−64, 640] |
| SpriteDemo.LoopIteration | sdl_tutorials/textures_example.cpp:249-339 | with any media `loadMedia` can accept as written, one pass keeps the animation invariant and sets quit iff a quit event arrived (or it was already set); each channel of the modulation moves by 32 per press of its key, modulo 256; the pass renders exactly `RenderFrame` with that new modulation and the counters from the top of the pass (clear, background, modulation, the four corner sprites, the stick figure); the counters then take one `AnimStep` |
| SpriteDemo.StartupAsWritten | sdl_tutorials/textures_example.cpp:238-247 | as written: the loop is entered iff SDL started and the background and circle images loaded; the stick clips are the sheet's iff its image loaded, else zero with a NULL texture; the loop's preconditions then hold |
| SpriteDemo.Startup | sdl_tutorials/textures_example.cpp:238-247 | corrected: the same as written whenever the stick image loads, otherwise no loop; the loop is entered only with every texture ready and 64-pixel clips |
| SpriteDemo.StickMissingLoop | sdl_tutorials/textures_example.cpp:204-206 | as written, with only the stick image missing, the loop runs and each pass copies the all-zero clip of the NULL texture to a 0×0 quad at (640, 480), and the figure never moves |
| SpriteDemo.Run | sdl_tutorials/textures_example.cpp:249-339 | the loop keeps the animation invariant, issues 10 commands per pass, at least one pass when not quitting, and does nothing once quit is set |
| SpriteDemo.RunPasses | sdl_tutorials/textures_example.cpp:249-253 | with no quit event every batch gets a pass and quit stays clear; a quit in the first batch ends the loop after that one pass |
| SpriteDemo.RunUntilQuit | sdl_tutorials/textures_example.cpp:249-253 | if batch i is the first holding a quit event, exactly i + 1 passes run (10 (i + 1) commands) and the loop ends with quit set |

## Left out

- SDL set-up and tear-down are not modelled: `SDLWindow::init`/`close`, `init_sdl`/`close_sdl`, presenting, `SDL_Delay`. `init_sdl`'s result is a boolean parameter of `SpriteDemo.StartupAsWritten` and `SpriteDemo.Startup`. The renderer is the command list.
- The `SDLWindow` constructor is not modelled; it is wrapper plumbing. The window size 640×480 is a constant.
- The event queue is a sequence of abstract events (quit, key down with a key, anything else); reading it from SDL is I/O. The event loops of `main.cpp` and `fun_with_shapes.cpp` only look for quit; they are not modelled beyond the per-frame update.
- Image decoding, colour keying and texture creation become a `LoadOutcome` parameter. `setBlendMode` has no command: it only sets a blend mode, which affects nothing else in the model.
- `rand()` is a parameter, so the distribution of walk directions is not modelled.
- `perlinStep` has an empty body; no noise function exists to model.
- The process exit code is not modelled. As written, `textures_example.cpp` returns `quit ? 1 : 0` after the loop, and `quit` is always true there, so the program returns 1 even after a normal quit.
- The machine-integer width of positions is not modelled; `r * 2` and the coordinate updates are exact. Colour channels do wrap modulo 256.
- `bmp_example.cpp` is not part of this model.
- The fill flag exists for every `Polygon`, points included, although only circles and rectangles read it; `Point::draw` ignores it.
- Drawing is pure in the model. The C++ `draw` members only read the shape, so drawing changes no position, radius or colour.
- Walker.Step: the default argument `magnitude = 1` of `step` and `step8` is not modelled. The model takes the magnitude as an explicit parameter, and every call in `main` passes 2.

## Findings

| source | as written | input that shows it | evidently intended | confidence | as-written member | corrected member |
|---|---|---|---|---|---|---|
| sdl_tutorials/textures_example.cpp:204-206 | a failed load of the stick-figure image is only reported on the console; `success` stays true | background and circle images load, stick image missing: `loadMedia` returns true, and the loop then renders the NULL stick texture with all-zero clips (`SpriteDemo.StickMissingLoop`) | every failed image makes `loadMedia` return false, as the two loads before it do | not executed | Textures.LoadMediaIgnoresStickFailure | Textures.LoadMediaCheckedSuccess |

/** `LTexture` and the media of textures_example.cpp. A texture is a handle
    (NULL or live) with the width and height of the image it was made from; the
    sprite sheets come with tables of clip rectangles, which are global arrays
    (zero-initialised) that `loadMedia` fills in. Image decoding and texture
    creation are SDL_image/SDL calls: their result is passed in as a `LoadOutcome`. */
module Textures {
  import opened SdlTypes

  const ScreenWidth: int := 640
  const ScreenHeight: int := 480
  const WalkingAnimationFrames: int := 4

  datatype LTexture = LTexture(handle: Handle, width: int, height: int)

  /** LTexture(): no texture, size 0 x 0. */
  const EmptyTexture: LTexture := LTexture(NoTexture, 0, 0)

  /** A texture without a live handle has size 0 x 0. */
  predicate Valid(t: LTexture) {
    t.handle.NoTexture? ==> t.width == 0 && t.height == 0
  }

  /** LTexture::free: a live texture is destroyed and the size reset; a NULL
      texture is left alone. */
  function Free(t: LTexture): (r: LTexture)
    ensures r.handle.NoTexture?
    ensures t.handle.NoTexture? ==> r == t
    ensures Valid(t) ==> r == EmptyTexture
  {
    if t.handle.TextureHandle? then LTexture(NoTexture, 0, 0) else t
  }

  /** Freeing twice is freeing once. */
  lemma FreeIdempotent(t: LTexture)
    ensures Free(Free(t)) == Free(t)
  {
  }

  /** What the SDL calls inside `loadFromFile` returned: IMG_Load failed, or
      SDL_CreateTextureFromSurface failed, or both succeeded, giving a texture and
      the surface's size. */
  datatype LoadOutcome = ImageMissing | TextureFailed | Loaded(id: nat, w: int, h: int)

  /** LTexture::loadFromFile: free the old texture, then take the new one. It
      reports success exactly when the texture handle is live afterwards. */
  function LoadFromFile(t: LTexture, outcome: LoadOutcome): (r: (LTexture, bool))
    ensures r.1 <==> r.0.handle.TextureHandle?
    ensures r.1 <==> outcome.Loaded?
    ensures outcome.Loaded? ==> r.0 == LTexture(TextureHandle(outcome.id), outcome.w, outcome.h)
    ensures !outcome.Loaded? ==> r.0 == Free(t)
    ensures Valid(t) ==> Valid(r.0)
  {
    var freed := Free(t);
    match outcome
    case ImageMissing => (freed, false)
    case TextureFailed => (freed, false)  // the NULL result lands in the already-NULL handle
    case Loaded(id, w, h) => (LTexture(TextureHandle(id), w, h), true)
  }

  /** LTexture::render(x, y, clip): copy `clip` of the texture (all of it when clip
      is NULL) to a quad at (x, y) whose size is the clip's, or else the texture's. */
  function Render(t: LTexture, x: int, y: int, clip: Option<Rect>): (c: RenderCmd)
    ensures c.Copy? && c.texture == t.handle && c.src == clip
    ensures c.dst.x == x && c.dst.y == y
    ensures clip.Some? ==> c.dst.w == clip.value.w && c.dst.h == clip.value.h
    ensures clip.None? ==> c.dst.w == t.width && c.dst.h == t.height
  {
    var quad := Rect(x, y, t.width, t.height);
    var quad' := if clip.Some? then quad.(w := clip.value.w, h := clip.value.h) else quad;
    Copy(t.handle, clip, quad')
  }

  /** The clip tables as they stand before `loadMedia` fills them: all zero. */
  const ZeroClips: seq<Rect> := [Rect(0, 0, 0, 0), Rect(0, 0, 0, 0), Rect(0, 0, 0, 0), Rect(0, 0, 0, 0)]

  /** The four circle sprites: the quadrants of a 200 x 200 sheet, in the order
      top left, top right, bottom left, bottom right. */
  const CircleSheetClips: seq<Rect> :=
    [Rect(0, 0, 100, 100), Rect(100, 0, 100, 100), Rect(0, 100, 100, 100), Rect(100, 100, 100, 100)]

  /** The four walking-stick frames, side by side, each 64 x 205. */
  const StickSheetClips: seq<Rect> :=
    [Rect(0, 0, 64, 205), Rect(64, 0, 64, 205), Rect(128, 0, 64, 205), Rect(192, 0, 64, 205)]

  /** The circle clips are 100 x 100 quadrants that tile the 200 x 200 sheet: each
      lies inside it, and each pixel of the sheet is in exactly one clip. */
  lemma CircleClipsTileSheet()
    ensures |CircleSheetClips| == 4
    ensures forall i :: 0 <= i < 4 ==>
      CircleSheetClips[i].w == 100 && CircleSheetClips[i].h == 100 &&
      Inside(CircleSheetClips[i], Rect(0, 0, 200, 200))
    ensures forall px, py :: 0 <= px < 200 && 0 <= py < 200 ==>
      Contains(CircleSheetClips[2 * (py / 100) + px / 100], px, py)
    ensures forall i, j, px, py :: 0 <= i < j < 4 && Contains(CircleSheetClips[i], px, py) ==>
      !Contains(CircleSheetClips[j], px, py)
  {
  }

  /** Stick clip i sits at x = 64 i, y = 0, and is 64 x 205. */
  lemma StickClipsLayout()
    ensures |StickSheetClips| == WalkingAnimationFrames
    ensures forall i :: 0 <= i < 4 ==> StickSheetClips[i] == Rect(64 * i, 0, 64, 205)
  {
  }

  /** All textures and clip tables of the program. */
  datatype Media = Media(
    background: LTexture,
    circles: LTexture, circleClips: seq<Rect>,
    stick: LTexture, stickClips: seq<Rect>)

  /** The globals before `loadMedia`: empty textures, zeroed clip tables. */
  const InitialMedia: Media := Media(EmptyTexture, EmptyTexture, ZeroClips, EmptyTexture, ZeroClips)

  /** loadMedia as written: it loads the three images in turn, filling each clip
      table only when its image loaded. A failure of the background or circle image
      makes it report failure; a failure of the stick-figure image does not. */
  function LoadMedia(m: Media, bg: LoadOutcome, circles: LoadOutcome, stick: LoadOutcome): (r: (Media, bool))
    ensures r.1 <==> bg.Loaded? && circles.Loaded?
    ensures r.0.circleClips == (if circles.Loaded? then CircleSheetClips else m.circleClips)
    ensures r.0.stickClips == (if stick.Loaded? then StickSheetClips else m.stickClips)
  {
    var (background, ok1) := LoadFromFile(m.background, bg);
    var (circleTex, ok2) := LoadFromFile(m.circles, circles);
    var (stickTex, ok3) := LoadFromFile(m.stick, stick);
    var circleClips := if ok2 then CircleSheetClips else m.circleClips;
    var stickClips := if ok3 then StickSheetClips else m.stickClips;
    (Media(background, circleTex, circleClips, stickTex, stickClips), ok1 && ok2)
  }

  /** The discrepancy: with the stick-figure image missing, `loadMedia` still
      reports success, and the program runs with a NULL stick texture and an
      all-zero stick clip table. */
  lemma LoadMediaIgnoresStickFailure()
    ensures var (m, ok) := LoadMedia(InitialMedia, Loaded(1, 640, 480), Loaded(2, 200, 200), ImageMissing);
      ok && m.stick.handle.NoTexture? && m.stickClips[0] == Rect(0, 0, 0, 0)
  {
  }

  /** loadMedia as evidently intended: every failed image makes it report failure. */
  function LoadMediaChecked(m: Media, bg: LoadOutcome, circles: LoadOutcome, stick: LoadOutcome): (r: (Media, bool))
    ensures r.0 == LoadMedia(m, bg, circles, stick).0
    ensures r.1 <==> bg.Loaded? && circles.Loaded? && stick.Loaded?
  {
    var (media, ok) := LoadMedia(m, bg, circles, stick);
    (media, ok && stick.Loaded?)
  }

  /** What the render loop may rely on once loading has succeeded. */
  predicate MediaReady(m: Media) {
    && m.background.handle.TextureHandle?
    && m.circles.handle.TextureHandle? && m.circleClips == CircleSheetClips
    && m.stick.handle.TextureHandle? && m.stickClips == StickSheetClips
  }

  /** With the corrected check, success means all three textures are live and both
      clip tables hold the sprite-sheet layouts, whatever state the media were in. */
  lemma LoadMediaCheckedSuccess(m: Media, bg: LoadOutcome, circles: LoadOutcome, stick: LoadOutcome)
    ensures LoadMediaChecked(m, bg, circles, stick).1 <==> MediaReady(LoadMediaChecked(m, bg, circles, stick).0)
  {
  }
}

/** Values that the demos exchange with SDL: 8-bit colour channels, colours,
    rectangles, and the render calls the model keeps as an abstract command list. */
module SdlTypes {

  /** SDL's Uint8. */
  type Uint8 = x: int | 0 <= x < 256

  /** `Uint8 += d` in C: the sum is truncated back to 8 bits. */
  function AddUint8(v: Uint8, d: nat): (r: Uint8)
    ensures (r - v - d) % 256 == 0
  {
    (v + d) % 256
  }

  /** C's `/` on `int`, which truncates toward zero (Dafny's `/` is Euclidean):
      the remainder a - q * b takes the sign of the dividend and is smaller than
      the divisor in magnitude, which fixes q uniquely. */
  function CDiv(a: int, b: int): (q: int)
    requires b > 0
    ensures 0 <= a ==> 0 <= a - q * b < b
    ensures a < 0 ==> -b < a - q * b <= 0
  {
    if a >= 0 then a / b else -((-a) / b)
  }

  /** SDL_Color. */
  datatype Color = Color(r: Uint8, g: Uint8, b: Uint8, a: Uint8)

  const Black: Color := Color(0, 0, 0, 255)
  const White: Color := Color(255, 255, 255, 255)
  const Red: Color := Color(255, 0, 0, 255)
  const Green: Color := Color(0, 255, 0, 255)
  const Blue: Color := Color(0, 0, 255, 255)

  /** SDL_Rect: top-left corner, width and height. */
  datatype Rect = Rect(x: int, y: int, w: int, h: int)

  /** The pixel (px, py) lies inside `rc` (half-open on the right and bottom). */
  predicate Contains(rc: Rect, px: int, py: int) {
    rc.x <= px < rc.x + rc.w && rc.y <= py < rc.y + rc.h
  }

  /** `inner` lies entirely inside `outer`. */
  predicate Inside(inner: Rect, outer: Rect) {
    outer.x <= inner.x && inner.x + inner.w <= outer.x + outer.w &&
    outer.y <= inner.y && inner.y + inner.h <= outer.y + outer.h
  }

  datatype Option<T> = None | Some(value: T)

  /** An SDL_Texture pointer: NULL or some live texture. */
  datatype Handle = NoTexture | TextureHandle(id: nat)

  /** One call into the SDL renderer. */
  datatype RenderCmd =
    | SetDrawColor(color: Color)                         // SDL_SetRenderDrawColor
    | Clear                                              // SDL_RenderClear
    | DrawPoint(px: int, py: int)                        // SDL_RenderDrawPoint
    | DrawLine(x1: int, y1: int, x2: int, y2: int)       // SDL_RenderDrawLine
    | DrawRect(rect: Rect)                               // SDL_RenderDrawRect
    | FillRect(rect: Rect)                               // SDL_RenderFillRect
    | Copy(texture: Handle, src: Option<Rect>, dst: Rect) // SDL_RenderCopy
    | ColorMod(texture: Handle, mr: Uint8, mg: Uint8, mb: Uint8) // SDL_SetTextureColorMod
    | AlphaMod(texture: Handle, ma: Uint8)               // SDL_SetTextureAlphaMod
}

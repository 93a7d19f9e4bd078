/** The in-memory pixel buffer `framebuf[64][128]` and its direct pixel operations.

    Row `r`, column `k` of a `Frame` is the C cell `framebuf[r][k]`. Cells are bytes, as
    in the C array; that every cell holds a 2-bit grayscale level (0..3) is the
    invariant `IsLevels`, which every drawing operation of the driver preserves.
 */
module Framebuffer {
  import opened Bits

  const Width := 128
  const Height := 64

  type Row = r: seq<Byte> | |r| == Width witness seq(Width, _ => 0)
  type Frame = f: seq<Row> | |f| == Height witness seq<Row>(Height, _ => BlackRow)

  const BlackRow: Row := seq(Width, _ => 0)

  predicate OnScreen(x: int, y: int) {
    0 <= x < Width && 0 <= y < Height
  }

  /** Every cell holds a grayscale level. */
  predicate IsLevels(fb: Frame) {
    forall r, k :: 0 <= r < Height && 0 <= k < Width ==> fb[r][k] <= 3
  }

  /** The all-black buffer. */
  function Blank(): Frame {
    seq<Row>(Height, _ => BlackRow)
  }

  /** Two frames are equal when they agree cell by cell. */
  lemma FrameExt(a: Frame, b: Frame)
    requires forall r, k :: 0 <= r < Height && 0 <= k < Width ==> a[r][k] == b[r][k]
    ensures a == b
  {
    forall r | 0 <= r < Height
      ensures a[r] == b[r]
    {
      assert forall k :: 0 <= k < Width ==> a[r][k] == b[r][k];
    }
  }

  /** The C assignment `framebuf[y][x] = v` on a cell the caller has bounds-checked. */
  function Store(fb: Frame, x: int, y: int, v: Byte): (out: Frame)
    requires OnScreen(x, y)
    ensures out[y][x] == v
    ensures forall r, k :: 0 <= r < Height && 0 <= k < Width && (r != y || k != x) ==> out[r][k] == fb[r][k]
  {
    fb[y := fb[y][x := v]]
  }

  /** `SSD1322_SetPixel`: an off-screen coordinate is dropped; otherwise only cell
      `[y][x]` changes, and it receives `gray & 3`. */
  function SetPixel(fb: Frame, x: int, y: int, gray: Byte): (out: Frame)
    ensures !OnScreen(x, y) ==> out == fb
    ensures OnScreen(x, y) ==> out[y][x] == gray % 4
    ensures forall r, k :: 0 <= r < Height && 0 <= k < Width && (r != y || k != x) ==> out[r][k] == fb[r][k]
    ensures IsLevels(fb) ==> IsLevels(out)
  {
    if x < 0 || x >= Width || y < 0 || y >= Height then fb
    else Store(fb, x, y, gray % 4)
  }

  /** Writing the same pixel twice is the same as writing it once. */
  lemma SetPixelIdempotent(fb: Frame, x: int, y: int, gray: Byte)
    ensures SetPixel(SetPixel(fb, x, y, gray), x, y, gray) == SetPixel(fb, x, y, gray)
  {
    var once := SetPixel(fb, x, y, gray);
    FrameExt(SetPixel(once, x, y, gray), once);
  }

  /** `SSD1322_ClearFramebuffer`: the nested loop that zero-fills every cell, whatever the
      buffer held before. */
  method ClearFramebuffer(fb: Frame) returns (out: Frame)
    ensures forall r, k :: 0 <= r < Height && 0 <= k < Width ==> out[r][k] == 0
    ensures out == Blank()
  {
    out := fb;
    var r := 0;
    while r < Height
      invariant 0 <= r <= Height
      invariant forall r', k :: 0 <= r' < r && 0 <= k < Width ==> out[r'][k] == 0
    {
      var c := 0;
      while c < Width
        invariant 0 <= c <= Width
        invariant forall r', k :: 0 <= r' < r && 0 <= k < Width ==> out[r'][k] == 0
        invariant forall k :: 0 <= k < c ==> out[r][k] == 0
      {
        out := Store(out, c, r, 0);
        c := c + 1;
      }
      r := r + 1;
    }
    FrameExt(out, Blank());
  }

  /** The blank buffer is a buffer of levels. */
  lemma BlankIsLevels()
    ensures IsLevels(Blank())
  {
  }
}

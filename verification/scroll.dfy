/** The scrolling text line: `scrolling_line_t` (oled_ssd1322.h:45-51), `ScrollLine_Init`
    and `ScrollLine_Tick` (oled_ssd1322.c:357-380).

    A line that fits on the panel is drawn centred and never moves. A wider line
    ping-pongs: each tick draws it at the current offset, then moves the offset one
    column in the current direction, turning round at either end.
 */
module Scroll {
  import opened Bits
  import opened Framebuffer
  import opened Glyphs
  import opened Text

  /** `sizeof(line->text)`: room for 63 characters and the terminating NUL. */
  const TextCapacity := 64

  /** `scrolling_line_t`. `pixelWidth` is `text_pixel_width`; `direction` is +1 (the text
      moves left) or -1 (it moves right). */
  datatype ScrollLine = ScrollLine(text: seq<Byte>, pixelWidth: int, offset: int, direction: int, y: int)

  /** The state `ScrollLine_Tick` keeps. A line no wider than the panel stays at offset 0
      moving +1; a wider one stays within [0, w - 128], moving +1 only while there is room
      on the right and -1 only while there is room on the left. */
  predicate Valid(l: ScrollLine) {
    var m := l.pixelWidth - Width;
    (l.direction == 1 || l.direction == -1) &&
    (if m > 0 then
       0 <= l.offset <= m && (l.direction == 1 ==> l.offset < m) && (l.direction == -1 ==> l.offset > 0)
     else l.offset == 0 && l.direction == 1)
  }

  /** `ScrollLine_Init`: the text is copied, cut to what fits in `text[64]`; its width is
      that of a run of glyphs, `7 * len - 1`. */
  function Init(fmt: seq<Byte>, y: int): (l: ScrollLine)
    ensures |l.text| <= TextCapacity - 1
    ensures |l.text| <= |fmt| && l.text == fmt[..|l.text|]
    ensures |fmt| < TextCapacity ==> l.text == fmt
    ensures |l.text| == if |fmt| < TextCapacity then |fmt| else TextCapacity - 1
    ensures l.pixelWidth == Pitch * |l.text| - 1 && -1 <= l.pixelWidth <= 440
    ensures l.offset == 0 && l.direction == 1 && l.y == y
    ensures Valid(l)
  {
    var text := if |fmt| < TextCapacity then fmt else fmt[..TextCapacity - 1];
    ScrollLine(text, |text| * 7 - 1, 0, 1, y)
  }

  /** The offset a tick draws at: centred for a line that fits, the current offset
      otherwise. */
  function DrawOffset(l: ScrollLine): int {
    if l.pixelWidth <= Width then -TruncHalf(Width - l.pixelWidth) else l.offset
  }

  /** The state after one tick. */
  function Step(l: ScrollLine): ScrollLine {
    if l.pixelWidth <= Width then l
    else
      var offset := l.offset + l.direction;
      var d1 := if offset + Width >= l.pixelWidth then -1 else l.direction;
      var d2 := if offset <= 0 then 1 else d1;
      l.(offset := offset, direction := d2)
  }

  /** `ScrollLine_Tick`: draw the line, then (for a wide line) move it and turn at the
      ends. */
  method Tick(fb: Frame, font: Font, l: ScrollLine) returns (out: Frame, next: ScrollLine)
    ensures out == StringAtOffset(fb, font, l.text, l.y, DrawOffset(l))
    ensures next == Step(l)
  {
    next := l;
    if l.pixelWidth <= Width {
      var pad := TruncHalf(Width - l.pixelWidth);
      out := DrawStringAtOffset(fb, font, l.text, l.y, -pad);
    } else {
      out := DrawStringAtOffset(fb, font, l.text, l.y, l.offset);
      next := next.(offset := next.offset + next.direction);
      if next.offset + Width >= next.pixelWidth {
        next := next.(direction := -1);
      }
      if next.offset <= 0 {
        next := next.(direction := 1);
      }
    }
  }

  /** A tick keeps the scroll invariant, moves a wide line by exactly one column, and
      turns it exactly at the ends: the direction becomes -1 when the offset reaches
      w - 128, +1 when it reaches 0, and is kept strictly in between. */
  lemma StepValid(l: ScrollLine)
    requires Valid(l)
    ensures Valid(Step(l))
    ensures Step(l).text == l.text && Step(l).pixelWidth == l.pixelWidth && Step(l).y == l.y
    ensures l.pixelWidth > Width ==>
      var n := Step(l);
      n.offset == l.offset + l.direction &&
      (n.offset == l.pixelWidth - Width ==> n.direction == -1) &&
      (n.offset == 0 ==> n.direction == 1) &&
      (0 < n.offset < l.pixelWidth - Width ==> n.direction == l.direction)
  {
  }

  /** A line that fits never moves and is drawn where `SSD1322_DrawStringCentered` would
      start the same text. */
  lemma StaticLine(l: ScrollLine)
    requires l.pixelWidth <= Width && l.pixelWidth == Pitch * |l.text| - 1
    ensures Step(l) == l
    ensures -DrawOffset(l) == CenterX(|l.text|) && DrawOffset(l) <= 0
  {
  }

  /** Ticking a line that fits redraws the same picture. */
  lemma StaticTickIdempotent(fb: Frame, font: Font, l: ScrollLine)
    requires l.pixelWidth <= Width
    ensures var once := StringAtOffset(fb, font, l.text, l.y, DrawOffset(l));
      StringAtOffset(once, font, Step(l).text, Step(l).y, DrawOffset(Step(l))) == once
  {
    AtOffsetIdempotent(fb, font, l.text, l.y, DrawOffset(l));
  }

  /** The state after `n` ticks. */
  function Iterate(l: ScrollLine, n: nat): ScrollLine
    decreases n
  {
    if n == 0 then l else Iterate(Step(l), n - 1)
  }

  /** The invariant holds on every tick: a wide line never leaves [0, w - 128] and its
      direction is always +1 or -1. */
  lemma {:induction false} IterateValid(l: ScrollLine, n: nat)
    requires Valid(l)
    ensures Valid(Iterate(l, n))
    ensures Iterate(l, n).pixelWidth == l.pixelWidth
    ensures l.pixelWidth > Width ==> 0 <= Iterate(l, n).offset <= l.pixelWidth - Width
    decreases n
  {
    if n > 0 {
      StepValid(l);
      IterateValid(Step(l), n - 1);
    }
  }

  /** Moving right to left: from offset `o` with direction +1, `k` ticks reach offset
      `o + k`, turning round exactly on arrival at w - 128. */
  lemma {:induction false} SweepOut(l: ScrollLine, k: nat)
    requires l.pixelWidth > Width && Valid(l) && l.direction == 1
    requires l.offset + k <= l.pixelWidth - Width
    ensures Iterate(l, k) ==
      l.(offset := l.offset + k, direction := if k > 0 && l.offset + k == l.pixelWidth - Width then -1 else 1)
    decreases k
  {
    if k > 1 {
      StepValid(l);
      SweepOut(Step(l), k - 1);
    }
  }

  /** Moving back: from offset `o` with direction -1, `k` ticks reach offset `o - k`,
      turning round exactly on arrival at 0. */
  lemma {:induction false} SweepBack(l: ScrollLine, k: nat)
    requires l.pixelWidth > Width && Valid(l) && l.direction == -1
    requires k <= l.offset
    ensures Iterate(l, k) ==
      l.(offset := l.offset - k, direction := if k > 0 && l.offset == k then 1 else -1)
    decreases k
  {
    if k > 1 {
      StepValid(l);
      SweepBack(Step(l), k - 1);
    }
  }

  lemma {:induction false} IterateAdd(l: ScrollLine, a: nat, b: nat)
    ensures Iterate(l, a + b) == Iterate(Iterate(l, a), b)
    decreases a
  {
    if a > 0 {
      IterateAdd(Step(l), a - 1, b);
    }
  }

  /** A wide line started by `Init` sweeps out to w - 128 in w - 128 ticks, back to 0 in
      as many again, and is then exactly where it started: the motion is periodic with
      period 2 * (w - 128). */
  lemma WideLinePeriod(fmt: seq<Byte>, y: int)
    requires Init(fmt, y).pixelWidth > Width
    ensures var l := Init(fmt, y);
      var m := l.pixelWidth - Width;
      Iterate(l, m).offset == m && Iterate(l, m).direction == -1 &&
      Iterate(l, 2 * m) == l
  {
    var l := Init(fmt, y);
    var m := l.pixelWidth - Width;
    SweepOut(l, m);
    var far := Iterate(l, m);
    SweepBack(far, m);
    IterateAdd(l, m, m);
  }
}

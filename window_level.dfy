/**
  The simulated window level / width pass of the viewer
  (`applyWindowLevelEffect`, src/components/DicomViewer.tsx:94-120): an
  in-place walk over the RGBA bytes of the base canvas that stretches the
  colour channels around 128 and then shifts them, each store going
  through a `Uint8ClampedArray`.
 */
module WindowLevel {

  /** Every entry is a byte value, as a `Uint8ClampedArray` guarantees. */
  predicate IsPixelData(s: seq<int>) {
    forall i :: 0 <= i < |s| ==> 0 <= s[i] <= 255
  }

  /**
    ToUint8Clamp (section 7.1.12 of ECMA-262): the value a store into a
    `Uint8ClampedArray` keeps, that is, the argument clamped to 0..255 and
    rounded to the nearest integer, ties going to the even one.
   */
  function ToUint8Clamp(x: real): (r: int)
    ensures 0 <= r <= 255
    ensures x <= 0.0 ==> r == 0
    ensures x >= 255.0 ==> r == 255
    ensures 0.0 <= x <= 255.0 ==> -0.5 <= r as real - x <= 0.5
    ensures 0.0 <= x <= 255.0 && (r as real - x == 0.5 || x - r as real == 0.5) ==> r % 2 == 0
  {
    if x <= 0.0 then 0
    else if x >= 255.0 then 255
    else
      var f := x.Floor;
      if f as real + 0.5 < x then f + 1
      else if x < f as real + 0.5 then f
      else if f % 2 == 1 then f + 1
      else f
  }

  /** A byte value is stored unchanged. */
  lemma ToUint8ClampOfByte(n: int)
    requires 0 <= n <= 255
    ensures ToUint8Clamp(n as real) == n
  {
    assert (n as real).Floor == n;
  }

  /** Storing preserves order: a larger value never ends up as a smaller byte. */
  lemma ToUint8ClampMonotone(x: real, y: real)
    requires x <= y
    ensures ToUint8Clamp(x) <= ToUint8Clamp(y)
  {
    if 0.0 < x <= y < 255.0 {
      var fx, fy := x.Floor, y.Floor;
      if fx < fy {
        assert ToUint8Clamp(x) <= fx + 1 <= fy <= ToUint8Clamp(y);
      }
    }
  }

  /** The integer part of `num / 50` and where the fraction stands against one half. */
  lemma FloorOfFiftieths(num: int)
    ensures (num as real / 50.0).Floor == num / 50
    ensures 2 * (num % 50) > 50 <==> (num / 50) as real + 0.5 < num as real / 50.0
    ensures 2 * (num % 50) < 50 <==> num as real / 50.0 < (num / 50) as real + 0.5
  {
    var f, rem := num / 50, num % 50;
    assert num == f * 50 + rem && 0 <= rem < 50;
    assert num as real / 50.0 == f as real + rem as real / 50.0;
  }

  /**
    ToUint8Clamp of the exact fraction `num / 50`, computed on integers:
    floor division gives the integer part and twice the remainder, set
    against 50, decides the rounding.
   */
  function ToUint8ClampFiftieths(num: int): (r: int)
    ensures 0 <= r <= 255
  {
    var f, rem := num / 50, num % 50;
    if num <= 0 then 0
    else if num >= 255 * 50 then 255
    else if 2 * rem > 50 then f + 1
    else if 2 * rem < 50 then f
    else if f % 2 == 1 then f + 1
    else f
  }

  /** The integer computation agrees with ToUint8Clamp on the fraction. */
  lemma FiftiethsAgree(num: int)
    ensures ToUint8ClampFiftieths(num) == ToUint8Clamp(num as real / 50.0)
  {
    FloorOfFiftieths(num);
  }

  /** ToUint8Clamp of an integer: clamping alone, nothing to round. */
  function ClampByte(n: int): (r: int)
    ensures 0 <= r <= 255
  {
    if n <= 0 then 0 else if n >= 255 then 255 else n
  }

  /** Clamping agrees with ToUint8Clamp on integers. */
  lemma ClampByteAgrees(n: int)
    ensures ClampByte(n) == ToUint8Clamp(n as real)
  {
    assert (n as real).Floor == n;
  }

  /** `1 + (width / 50 - 1)`: the contrast factor, 0 at width 0 and 2 at width 100. */
  function Contrast(width: int): real {
    1.0 + (width as real / 50.0 - 1.0)
  }

  /** `(level - 50) * 2`: the brightness offset, -100 at level 0 and 100 at level 100. */
  function Brightness(level: int): int {
    (level - 50) * 2
  }

  /**
    The contrast store `data[k] = (data[k] - 128) * contrast + 128`, with
    the stored value computed in fiftieths, `((d - 128) * width + 6400) / 50`,
    which is exact because the width is an integer.
   */
  function ContrastChannel(d: int, width: int): (r: int)
    ensures 0 <= r <= 255
    ensures width == 50 && 0 <= d <= 255 ==> r == d
  {
    ToUint8ClampFiftieths((d - 128) * width + 128 * 50)
  }

  /** The fiftieths computation stores the same byte as the source's real-valued formula. */
  lemma ContrastChannelMatchesFormula(d: int, width: int)
    ensures ContrastChannel(d, width) == ToUint8Clamp((d - 128) as real * Contrast(width) + 128.0)
  {
    ContrastNumerator(d, width);
    FiftiethsAgree((d - 128) * width + 128 * 50);
  }

  /** The numerator in fiftieths, divided by 50, is the source's real-valued contrast formula. */
  lemma ContrastNumerator(d: int, width: int)
    ensures ((d - 128) * width + 128 * 50) as real / 50.0 == (d - 128) as real * Contrast(width) + 128.0
  {
    var p := (d - 128) * width;
    RealOfProduct(d - 128, width);
    ScaleByFiftieth((d - 128) as real, width as real);
    ShiftFiftieths(p);
  }

  /** Converting a product to a real is multiplying the converted factors. */
  lemma RealOfProduct(x: int, y: int)
    ensures (x * y) as real == x as real * y as real
  {
  }

  /** `a * (w / 50) == (a * w) / 50`. */
  lemma ScaleByFiftieth(a: real, w: real)
    ensures a * (1.0 + (w / 50.0 - 1.0)) == (a * w) / 50.0
  {
  }

  /** Adding 6400 fiftieths adds 128. */
  lemma ShiftFiftieths(p: int)
    ensures (p + 128 * 50) as real / 50.0 == p as real / 50.0 + 128.0
  {
  }

  /**
    The brightness store `data[k] += brightness`: the integer sum, clamped.
    A sum that is a byte is stored as it is, so a byte at level 50 is kept.
   */
  function BrightnessChannel(d: int, level: int): (r: int)
    ensures 0 <= r <= 255
    ensures 0 <= d + Brightness(level) <= 255 ==> r == d + Brightness(level)
    ensures level == 50 && 0 <= d <= 255 ==> r == d
  {
    ClampByte(d + Brightness(level))
  }

  /** One colour channel after both stores. */
  function AdjustChannel(d: int, level: int, width: int): int {
    BrightnessChannel(ContrastChannel(d, width), level)
  }

  /**
    The whole buffer after the pass: colour channels adjusted, every fourth
    byte (alpha) kept. It has the same length, and every byte of it is a
    byte value.
   */
  function WindowLevelPass(s: seq<int>, level: int, width: int): (r: seq<int>)
    ensures |r| == |s|
    ensures forall k :: 0 <= k < |r| ==> 0 <= r[k] <= 255 || (k % 4 == 3 && r[k] == s[k])
  {
    seq(|s|, k requires 0 <= k < |s| => if k % 4 == 3 then s[k] else AdjustChannel(s[k], level, width))
  }

  /** The pass keeps the length and the alpha bytes, and leaves only byte values. */
  lemma PassShape(s: seq<int>, level: int, width: int)
    requires IsPixelData(s)
    ensures |WindowLevelPass(s, level, width)| == |s|
    ensures forall k :: 0 <= k < |s| && k % 4 == 3 ==> WindowLevelPass(s, level, width)[k] == s[k]
    ensures IsPixelData(WindowLevelPass(s, level, width))
  {
  }

  /** At the defaults (level 50, width 50) contrast is exactly 1, brightness 0, and the buffer is unchanged. */
  lemma DefaultsAreIdentity(s: seq<int>)
    requires IsPixelData(s)
    ensures WindowLevelPass(s, 50, 50) == s
  {
    forall k | 0 <= k < |s| ensures WindowLevelPass(s, 50, 50)[k] == s[k] {
      FiftiethsOfByte(s[k]);
    }
  }

  /** A byte times 50, that is the byte written in fiftieths, is stored as that byte. */
  lemma FiftiethsOfByte(d: int)
    requires 0 <= d <= 255
    ensures ToUint8ClampFiftieths(d * 50) == d
  {
  }

  /** Mid grey (128) is the pivot of the contrast stretch, whatever the width. */
  lemma ContrastPivot(width: int)
    ensures ContrastChannel(128, width) == 128
  {
    assert (128 - 128) * width + 128 * 50 == 128 * 50;
    FiftiethsOfByte(128);
  }

  /** For every width on the slider the pass keeps the order of intensities of a channel. */
  lemma AdjustChannelMonotone(d1: int, d2: int, level: int, width: int)
    requires 0 <= width <= 100
    requires d1 <= d2
    ensures AdjustChannel(d1, level, width) <= AdjustChannel(d2, level, width)
  {
    ProductMonotone(d1 - 128, d2 - 128, width);
    var n1, n2 := (d1 - 128) * width + 128 * 50, (d2 - 128) * width + 128 * 50;
    FiftiethsMonotone(n1, n2);
    var c1, c2 := ContrastChannel(d1, width), ContrastChannel(d2, width);
    assert c1 + Brightness(level) <= c2 + Brightness(level);
  }

  /** Multiplying by a non-negative factor preserves order. */
  lemma ProductMonotone(a: int, b: int, w: int)
    requires a <= b && w >= 0
    ensures a * w <= b * w
  {
    assert b * w - a * w == (b - a) * w;
  }

  /** A larger numerator never stores a smaller byte. */
  lemma FiftiethsMonotone(n1: int, n2: int)
    requires n1 <= n2
    ensures ToUint8ClampFiftieths(n1) <= ToUint8ClampFiftieths(n2)
  {
    FiftiethsAgree(n1);
    FiftiethsAgree(n2);
    ToUint8ClampMonotone(n1 as real / 50.0, n2 as real / 50.0);
  }

  /** Within the pixel starting at a multiple of 4, the byte's offset is its index modulo 4. */
  lemma PixelOffset(i: int, k: int)
    requires 0 <= i && i % 4 == 0 && i <= k < i + 4
    ensures k % 4 == k - i
  {
    assert k == 4 * (i / 4) + (k - i);
  }

  /**
    The first inner loop of the pass: the contrast store on the colour
    bytes `i`, `i + 1`, `i + 2` that lie inside the buffer.
   */
  method StretchPixel(data: array<int>, i: int, width: int)
    requires 0 <= i
    modifies data
    ensures forall k :: 0 <= k < data.Length ==>
      data[k] == if i <= k < i + 3 then ContrastChannel(old(data[k]), width) else old(data[k])
  {
    var j := 0;
    while j < 3
      invariant 0 <= j <= 3
      invariant forall k :: 0 <= k < data.Length ==>
        data[k] == if i <= k < i + j then ContrastChannel(old(data[k]), width) else old(data[k])
    {
      if i + j < data.Length {
        data[i + j] := ContrastChannel(data[i + j], width);
      }
      j := j + 1;
    }
  }

  /**
    The second inner loop of the pass: the brightness store on the colour
    bytes `i`, `i + 1`, `i + 2` that lie inside the buffer.
   */
  method ShiftPixel(data: array<int>, i: int, level: int)
    requires 0 <= i
    modifies data
    ensures forall k :: 0 <= k < data.Length ==>
      data[k] == if i <= k < i + 3 then BrightnessChannel(old(data[k]), level) else old(data[k])
  {
    var j := 0;
    while j < 3
      invariant 0 <= j <= 3
      invariant forall k :: 0 <= k < data.Length ==>
        data[k] == if i <= k < i + j then BrightnessChannel(old(data[k]), level) else old(data[k])
    {
      if i + j < data.Length {
        data[i + j] := BrightnessChannel(data[i + j], level);
      }
      j := j + 1;
    }
  }

  /** The buffer with both stores applied to the colour bytes `i`, `i + 1`, `i + 2` of a pixel. */
  function AdjustedAt(s: seq<int>, i: int, level: int, width: int): seq<int> {
    seq(|s|, k requires 0 <= k < |s| => if i <= k < i + 3 then AdjustChannel(s[k], level, width) else s[k])
  }

  /** The buffer once the outer loop has handled every pixel below `n`: passed bytes below `n`, original ones from `n` on. */
  function PassedUpTo(s: seq<int>, level: int, width: int, n: int): seq<int> {
    seq(|s|, k requires 0 <= k < |s| => if k < n then WindowLevelPass(s, level, width)[k] else s[k])
  }

  /** Before the first pixel nothing has changed. */
  lemma PassStart(s: seq<int>, level: int, width: int)
    ensures PassedUpTo(s, level, width, 0) == s
  {
  }

  /** Adjusting the colour bytes of the pixel at `i` completes the pass up to the next pixel. */
  lemma PassStep(s: seq<int>, level: int, width: int, i: int)
    requires 0 <= i && i % 4 == 0
    ensures AdjustedAt(PassedUpTo(s, level, width, i), i, level, width) == PassedUpTo(s, level, width, i + 4)
  {
    var lhs := AdjustedAt(PassedUpTo(s, level, width, i), i, level, width);
    var rhs := PassedUpTo(s, level, width, i + 4);
    var w := WindowLevelPass(s, level, width);
    forall k | 0 <= k < |s| ensures lhs[k] == rhs[k] {
      if k < i {
        assert lhs[k] == w[k] == rhs[k];
      } else if k < i + 3 {
        PixelOffset(i, k);
        assert rhs[k] == w[k] == AdjustChannel(s[k], level, width);
      } else if k == i + 3 {
        PixelOffset(i, k);
        assert rhs[k] == w[k] == s[k];
      }
    }
  }

  /** Once every pixel is handled the buffer is the whole pass. */
  lemma PassDone(s: seq<int>, level: int, width: int, n: int)
    requires |s| <= n
    ensures PassedUpTo(s, level, width, n) == WindowLevelPass(s, level, width)
  {
  }

  /** The body of the pass's outer loop: both stores on the colour bytes of the pixel at `i`. */
  method AdjustPixel(data: array<int>, i: int, level: int, width: int)
    requires 0 <= i
    modifies data
    ensures data[..] == AdjustedAt(old(data[..]), i, level, width)
  {
    StretchPixel(data, i, width);
    ShiftPixel(data, i, level);
    assert data[..] == AdjustedAt(old(data[..]), i, level, width);
  }

  /**
    `applyWindowLevelEffect` on the canvas bytes: for every pixel `i` (a
    step of 4) the three colour bytes first get the contrast store and
    then the brightness store; the alpha byte is never touched. Stores
    past the end of a typed array are ignored.
   */
  method ApplyWindowLevelEffect(data: array<int>, level: int, width: int)
    modifies data
    ensures data[..] == WindowLevelPass(old(data[..]), level, width)
  {
    ghost var before := data[..];
    PassStart(before, level, width);
    var i := 0;
    while i < data.Length
      invariant 0 <= i && i % 4 == 0
      invariant data[..] == PassedUpTo(before, level, width, i)
    {
      PassStep(before, level, width, i);
      AdjustPixel(data, i, level, width);
      i := i + 4;
    }
    PassDone(before, level, width, i);
  }
}

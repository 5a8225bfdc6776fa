/** `imageToMatrix`: every packed ARGB pixel of the image becomes the
    average of its red, green and blue channels. */
module Grey {
  import opened Wrappers
  import opened Histograms
  import opened Otsu

  /** Java `int`: the range a packed pixel lives in. */
  predicate IsInt32(x: int)
  {
    -0x8000_0000 <= x < 0x8000_0000
  }

  /** The shifts the conversion uses, 8, 16 and 24 bits, as divisors. */
  predicate IsByteShift(d: int)
  {
    d == 0x100 || d == 0x1_0000 || d == 0x100_0000
  }

  /** `x >> n` on a Java `int`: the arithmetic shift rounds toward minus
      infinity, which for a positive divisor `2^n` is Dafny's Euclidean `/`. */
  function ShiftRight(x: int, divisor: int): (r: int)
    requires IsByteShift(divisor)
    ensures r * divisor <= x < r * divisor + divisor
  {
    x / divisor
  }

  /** `x & 0xFF` on a two's-complement `int`: the lowest eight bits, which
      for negative `x` too is the non-negative remainder modulo 256. */
  function LowByte(x: int): (r: int)
    ensures 0 <= r < 256
    ensures exists q :: x == q * 256 + r
  {
    var q := x / 256;
    assert x == q * 256 + x % 256;
    x % 256
  }

  /** Line 151: `(rgb >> 16) & 0xFF`, the byte at bits 16 to 23. */
  function Red(rgb: int): (r: int)
    ensures 0 <= r < 256
    ensures exists high :: 0 <= rgb - high * 0x100_0000 - r * 0x1_0000 < 0x1_0000
  {
    var q := ShiftRight(rgb, 0x1_0000);
    assert rgb == q * 0x1_0000 + rgb % 0x1_0000;
    assert q == q / 256 * 256 + q % 256;
    assert rgb == q / 256 * 0x100_0000 + q % 256 * 0x1_0000 + rgb % 0x1_0000;
    LowByte(q)
  }

  /** Line 152: `(rgb >> 8) & 0xFF`, the byte at bits 8 to 15. */
  function Green(rgb: int): (r: int)
    ensures 0 <= r < 256
    ensures exists high :: 0 <= rgb - high * 0x1_0000 - r * 0x100 < 0x100
  {
    var q := ShiftRight(rgb, 0x100);
    assert rgb == q * 0x100 + rgb % 0x100;
    assert q == q / 256 * 256 + q % 256;
    assert rgb == q / 256 * 0x1_0000 + q % 256 * 0x100 + rgb % 0x100;
    LowByte(q)
  }

  /** Line 153: `rgb & 0xFF`, the byte at bits 0 to 7. */
  function Blue(rgb: int): (r: int)
    ensures 0 <= r < 256
    ensures exists high :: rgb == high * 0x100 + r
  {
    LowByte(rgb)
  }

  /** The alpha channel, bits 24 to 31, which the conversion ignores. */
  function Alpha(rgb: int): int
  {
    LowByte(ShiftRight(rgb, 0x100_0000))
  }

  /** The packed `int` of `Color(red, green, blue, alpha).getRGB()`: the
      channels as the four bytes of a word, read as a signed 32-bit value. */
  function Pack(alpha: int, red: int, green: int, blue: int): (rgb: int)
    requires 0 <= alpha < 256 && 0 <= red < 256 && 0 <= green < 256 && 0 <= blue < 256
    ensures IsInt32(rgb)
  {
    var word := alpha * 0x100_0000 + red * 0x1_0000 + green * 0x100 + blue;
    if word >= 0x8000_0000 then word - 0x1_0000_0000 else word
  }

  /** Line 154: `(r + g + b) / 3`. The sum is never negative, so
      Java's truncating division and Dafny's agree. */
  function GreyLevel(rgb: int): (g: int)
    ensures 0 <= g < LevelCount
  {
    (Red(rgb) + Green(rgb) + Blue(rgb)) / 3
  }

  /** Lines 147-160: the grey matrix of an image given row by row, where
      `pixels[row][col]` is `image.getRGB(col, row)`. */
  function ImageToMatrix(pixels: seq<seq<int>>): (m: seq<seq<int>>)
    ensures |m| == |pixels|
    ensures forall row :: 0 <= row < |pixels| ==> |m[row]| == |pixels[row]|
    ensures forall row, col :: 0 <= row < |pixels| && 0 <= col < |pixels[row]| ==>
      m[row][col] == GreyLevel(pixels[row][col])
    ensures InRange(m)
  {
    if |pixels| == 0 then []
    else ImageToMatrix(pixels[..|pixels| - 1]) + [GreyRow(pixels[|pixels| - 1])]
  }

  /** One row of the conversion. */
  function GreyRow(row: seq<int>): (r: seq<int>)
    ensures |r| == |row|
    ensures forall col :: 0 <= col < |row| ==> r[col] == GreyLevel(row[col])
  {
    if |row| == 0 then [] else GreyRow(row[..|row| - 1]) + [GreyLevel(row[|row| - 1])]
  }

  /** Lines 147-160 as written: the nested loop over rows and columns. */
  method ImageToMatrixLoop(pixels: seq<seq<int>>) returns (result: seq<seq<int>>)
    ensures result == ImageToMatrix(pixels)
  {
    result := [];
    var row := 0;
    while row < |pixels|
      invariant 0 <= row <= |pixels|
      invariant result == ImageToMatrix(pixels[..row])
    {
      var line := [];
      var col := 0;
      while col < |pixels[row]|
        invariant 0 <= col <= |pixels[row]|
        invariant line == GreyRow(pixels[row][..col])
      {
        var rgb := pixels[row][col];
        var r := LowByte(ShiftRight(rgb, 0x1_0000));
        var g := LowByte(ShiftRight(rgb, 0x100));
        var b := LowByte(rgb);
        var gray := (r + g + b) / 3;
        GreyRowStep(pixels[row], col);
        line := line + [gray];
        col := col + 1;
      }
      assert pixels[row][..col] == pixels[row];
      ImageStep(pixels, row);
      result := result + [line];
      row := row + 1;
    }
    assert pixels[..row] == pixels;
  }

  /** One pass of the inner loop appends the grey level of one pixel. */
  lemma {:induction false} GreyRowStep(row: seq<int>, col: int)
    requires 0 <= col < |row|
    ensures GreyRow(row[..col + 1]) == GreyRow(row[..col]) + [GreyLevel(row[col])]
  {
    assert row[..col + 1][..col] == row[..col];
  }

  /** One pass of the outer loop appends the grey row of one image row. */
  lemma {:induction false} ImageStep(pixels: seq<seq<int>>, row: int)
    requires 0 <= row < |pixels|
    ensures ImageToMatrix(pixels[..row + 1]) == ImageToMatrix(pixels[..row]) + [GreyRow(pixels[row])]
  {
    assert pixels[..row + 1][..row] == pixels[..row];
  }

  /** Splitting a value into a high part and a low part below the divisor
      is undone by `/` and `%`. */
  lemma {:induction false} DigitSplit(high: int, low: int, d: int)
    requires IsByteShift(d) && 0 <= low < d
    ensures (high * d + low) / d == high && (high * d + low) % d == low
  {
    if d == 0x100 {
      assert (high * 0x100 + low) / 0x100 == high;
    } else if d == 0x1_0000 {
      assert (high * 0x1_0000 + low) / 0x1_0000 == high;
    } else {
      assert (high * 0x100_0000 + low) / 0x100_0000 == high;
    }
  }

  /** A shift by 16 or 24 bits is two or three shifts by 8. */
  lemma {:induction false} ShiftBytes(x: int)
    ensures x / 0x1_0000 == (x / 0x100) / 0x100
    ensures x / 0x100_0000 == ((x / 0x100) / 0x100) / 0x100
  {
    var q1 := x / 0x100;
    var q2 := q1 / 0x100;
    var q3 := q2 / 0x100;
    assert x == q1 * 0x100 + x % 0x100;
    assert q1 == q2 * 0x100 + q1 % 0x100;
    assert q2 == q3 * 0x100 + q2 % 0x100;
    DigitSplit(q2, q1 % 0x100 * 0x100 + x % 0x100, 0x1_0000);
    DigitSplit(q3, (q2 % 0x100 * 0x100 + q1 % 0x100) * 0x100 + x % 0x100, 0x100_0000);
  }

  /** Reading the channels back out of a packed pixel recovers them. */
  lemma {:induction false} ChannelsOfPack(alpha: int, red: int, green: int, blue: int)
    requires 0 <= alpha < 256 && 0 <= red < 256 && 0 <= green < 256 && 0 <= blue < 256
    ensures var rgb := Pack(alpha, red, green, blue);
      Alpha(rgb) == alpha && Red(rgb) == red && Green(rgb) == green && Blue(rgb) == blue
  {
    var rgb := Pack(alpha, red, green, blue);
    var top := if alpha >= 128 then alpha - 256 else alpha;
    var upper := top * 0x100 + red;
    var q := upper * 0x100 + green;
    assert rgb == q * 0x100 + blue;
    ShiftBytes(rgb);
    DigitSplit(q, blue, 0x100);
    DigitSplit(upper, green, 0x100);
    DigitSplit(top, red, 0x100);
    DigitSplit(if alpha >= 128 then -1 else 0, alpha, 0x100);
  }

  /** Every 32-bit pixel is the packing of its own channels. */
  lemma {:induction false} PackOfChannels(rgb: int)
    requires IsInt32(rgb)
    ensures Pack(Alpha(rgb), Red(rgb), Green(rgb), Blue(rgb)) == rgb
  {
    ShiftBytes(rgb);
    var q1 := rgb / 0x100;
    var q2 := q1 / 0x100;
    var q3 := q2 / 0x100;
    assert rgb == q1 * 0x100 + Blue(rgb);
    assert q1 == q2 * 0x100 + Green(rgb);
    assert q2 == q3 * 0x100 + Red(rgb);
    assert -128 <= q3 < 128;
    assert Alpha(rgb) == if q3 < 0 then q3 + 256 else q3;
  }

  /** The grey level lies between the darkest and the brightest channel. */
  lemma {:induction false} GreyBetweenChannels(rgb: int)
    ensures var g := GreyLevel(rgb);
      && (g >= Red(rgb) || g >= Green(rgb) || g >= Blue(rgb))
      && (g <= Red(rgb) || g <= Green(rgb) || g <= Blue(rgb))
  {
  }

  /** A pixel whose three colour channels are equal keeps that level, whatever
      its alpha. */
  lemma {:induction false} GreyOfGreyPixel(alpha: int, level: int)
    requires 0 <= alpha < 256 && 0 <= level < LevelCount
    ensures GreyLevel(Pack(alpha, level, level, level)) == level
  {
    ChannelsOfPack(alpha, level, level, level);
  }

  /** The grey matrix of any image is a valid input of `getOtsuMatrix`. */
  lemma {:induction false} GreyImageBinarises(pixels: seq<seq<int>>)
    ensures OtsuMatrix(ImageToMatrix(pixels)).Some?
  {
  }

  /** An image painted in one grey colour `(level, level, level)` comes out
      all white when `level > 1` and all black otherwise. */
  lemma {:induction false} UniformGreyImage(pixels: seq<seq<int>>, colour: int, alpha: int, level: int)
    requires 0 <= alpha < 256 && 0 <= level < LevelCount && colour == Pack(alpha, level, level, level)
    requires forall row, col :: 0 <= row < |pixels| && 0 <= col < |pixels[row]| ==> pixels[row][col] == colour
    ensures OtsuMatrix(ImageToMatrix(pixels)).Some?
    ensures forall row, col :: 0 <= row < |pixels| && 0 <= col < |pixels[row]| ==>
      OtsuMatrix(ImageToMatrix(pixels)).value[row][col] == (if level > 1 then 255 else 0)
  {
    GreyOfGreyPixel(alpha, level);
    UniformMatrix(ImageToMatrix(pixels), level);
  }
}

/**
 * Bilinear demosaicing of a Bayer mosaic into an 8-bit RGB buffer.
 *
 * A mosaic holds one 16-bit sample per sensor site, row-major.  Each
 * interior pixel gets an (r, g, b) estimate built from its own sample and
 * from means of two or four neighbours, chosen by the site's place in the
 * 2x2 colour-filter tile; each channel is then conditioned to one byte.
 * The outer one-pixel ring stays zero.
 */
module Demosaic {

  newtype byte = x: int | 0 <= x < 0x100

  /** A raw sensor sample (`u16`). */
  type u16 = x: int | 0 <= x < 0x1_0000

  /** An IEEE-754 single (`f32`), kept as its bit pattern; the model does not compute with it. */
  datatype F32 = F32(bits: bv32)

  /** Black level, white level and white-balance gain of one colour channel. */
  datatype ChannelCalibration = ChannelCalibration(black: u16, white: u16, gain: F32)

  /**
   * Conditioning of one channel estimate into a byte: black-level
   * subtraction clamped at zero, division by the channel's range, the
   * white-balance gain, the 1/2.2 power, scaling by 255 capped at 255 and
   * the saturating cast to `u8`.  All of it is single-precision floating
   * point, so the model takes it as a parameter and states only that it
   * yields a byte.
   */
  type ToneCurve = (ChannelCalibration, real) -> byte

  /** A reconstructed (r, g, b) estimate.  Every estimate is a mean of at most four samples, exact in `f32`. */
  datatype Rgb = Rgb(r: real, g: real, b: real)

  datatype Color = Red | Green | Blue

  /** Everything the per-site estimate reads. */
  datatype Mosaic = Mosaic(samples: seq<u16>, width: nat, height: nat, pattern: string)

  predicate Covers(m: Mosaic)
  {
    |m.samples| >= m.width * m.height
  }

  lemma {:induction false} MulLe(a: nat, b: nat, c: nat)
    requires a <= b
    ensures a * c <= b * c
    decreases b - a
  {
    if a < b {
      MulLe(a, b - 1, c);
      assert b * c == (b - 1) * c + c;
    }
  }

  lemma RowMajorBound(width: nat, height: nat, x: nat, y: nat)
    requires x < width && y < height
    ensures y * width + x < width * height
  {
    assert (y + 1) * width == y * width + width;
    MulLe(y + 1, height, width);
  }

  /** The `get` closure: the sample at (x, y), or 0 off the frame. */
  function Sample(m: Mosaic, x: nat, y: nat): u16
    requires Covers(m)
  {
    if x >= m.width || y >= m.height then 0
    else
      RowMajorBound(m.width, m.height, x, y);
      m.samples[y * m.width + x]
  }

  /** Mean of the four orthogonal neighbours (left, right, up, down). */
  function OrthogonalMean(m: Mosaic, x: nat, y: nat): real
    requires Covers(m) && x >= 1 && y >= 1
  {
    (Sample(m, x - 1, y) + Sample(m, x + 1, y) + Sample(m, x, y - 1) + Sample(m, x, y + 1)) as real / 4.0
  }

  /** Mean of the four diagonal neighbours. */
  function DiagonalMean(m: Mosaic, x: nat, y: nat): real
    requires Covers(m) && x >= 1 && y >= 1
  {
    (Sample(m, x - 1, y - 1) + Sample(m, x + 1, y - 1) + Sample(m, x - 1, y + 1) + Sample(m, x + 1, y + 1)) as real / 4.0
  }

  /** Mean of the left and right neighbours. */
  function HorizontalMean(m: Mosaic, x: nat, y: nat): real
    requires Covers(m) && x >= 1
  {
    (Sample(m, x - 1, y) + Sample(m, x + 1, y)) as real / 2.0
  }

  /** Mean of the neighbours above and below. */
  function VerticalMean(m: Mosaic, x: nat, y: nat): real
    requires Covers(m) && y >= 1
  {
    (Sample(m, x, y - 1) + Sample(m, x, y + 1)) as real / 2.0
  }

  /**
   * The (r, g, b) estimate at site (x, y), by pattern name and by
   * (y mod 2, x mod 2).  The source's fourth arm of each inner match, for a
   * (row, col) outside {0, 1}, cannot be reached and is left out.  Both
   * coordinates are at least 1, so `x - 1` and `y - 1` do not underflow.
   */
  function Estimate(m: Mosaic, x: nat, y: nat): Rgb
    requires Covers(m) && x >= 1 && y >= 1
  {
    var row := y % 2;
    var col := x % 2;
    var own := Sample(m, x, y) as real;
    if m.pattern == "RGGB" then
      if row == 0 && col == 0 then Rgb(own, OrthogonalMean(m, x, y), DiagonalMean(m, x, y))
      else if row == 0 then Rgb(HorizontalMean(m, x, y), own, VerticalMean(m, x, y))
      else if col == 0 then Rgb(VerticalMean(m, x, y), own, HorizontalMean(m, x, y))
      else Rgb(DiagonalMean(m, x, y), OrthogonalMean(m, x, y), own)
    else if m.pattern == "BGGR" then
      if row == 0 && col == 0 then Rgb(DiagonalMean(m, x, y), OrthogonalMean(m, x, y), own)
      else if row == 0 then Rgb(VerticalMean(m, x, y), own, HorizontalMean(m, x, y))
      else if col == 0 then Rgb(HorizontalMean(m, x, y), own, VerticalMean(m, x, y))
      else Rgb(own, OrthogonalMean(m, x, y), DiagonalMean(m, x, y))
    else
      Rgb(own, own, own)
  }

  function ChannelOf(rgb: Rgb, c: Color): real
  {
    match c
    case Red => rgb.r
    case Green => rgb.g
    case Blue => rgb.b
  }

  /** Channel c of a pixel occupies byte c of its three. */
  function ColorAt(c: nat): Color
    requires c < 3
  {
    if c == 0 then Red else if c == 1 then Green else Blue
  }

  // ---------------------------------------------------------------------
  // An independent statement of the interpolation rules: the colour of
  // each cell of the 2x2 tile and, for each wanted colour, the neighbour
  // offsets whose mean gives it.
  // ---------------------------------------------------------------------

  predicate IsBayer(pattern: string)
  {
    pattern == "RGGB" || pattern == "BGGR"
  }

  /** The colour filter over tile cell (row, col): R G / G B for RGGB, B G / G R for BGGR. */
  function TileColor(pattern: string, row: nat, col: nat): Color
    requires IsBayer(pattern) && row < 2 && col < 2
  {
    if row != col then Green
    else if (row == 0) == (pattern == "RGGB") then Red
    else Blue
  }

  datatype Offset = Offset(dx: int, dy: int)

  /**
   * The neighbours read for colour `want` at tile cell (row, col): the site
   * itself when it carries that colour; at a red or blue site, the four
   * orthogonal neighbours for green and the four diagonal ones for the
   * opposite colour; at a green site, the horizontal pair when `want`
   * occurs in the site's tile row, else the vertical pair.
   */
  function Taps(pattern: string, row: nat, col: nat, want: Color): (r: seq<Offset>)
    requires IsBayer(pattern) && row < 2 && col < 2
    ensures |r| in {1, 2, 4}
    ensures forall i :: 0 <= i < |r| ==> Neighbour(r[i])
  {
    var site := TileColor(pattern, row, col);
    if site == want then SITE
    else if site != Green && want == Green then ORTHOGONAL
    else if site != Green then DIAGONAL
    else if TileColor(pattern, row, 0) == want || TileColor(pattern, row, 1) == want then HORIZONTAL
    else VERTICAL
  }

  const SITE := [Offset(0, 0)]
  const ORTHOGONAL := [Offset(-1, 0), Offset(1, 0), Offset(0, -1), Offset(0, 1)]
  const DIAGONAL := [Offset(-1, -1), Offset(1, -1), Offset(-1, 1), Offset(1, 1)]
  const HORIZONTAL := [Offset(-1, 0), Offset(1, 0)]
  const VERTICAL := [Offset(0, -1), Offset(0, 1)]

  predicate Neighbour(t: Offset)
  {
    -1 <= t.dx <= 1 && -1 <= t.dy <= 1
  }

  /** The samples at (x, y) + each tap. */
  function TapSamples(m: Mosaic, x: nat, y: nat, taps: seq<Offset>): (r: seq<u16>)
    requires Covers(m) && x >= 1 && y >= 1
    requires forall i :: 0 <= i < |taps| ==> Neighbour(taps[i])
    ensures |r| == |taps|
  {
    seq(|taps|, i requires 0 <= i < |taps| && Neighbour(taps[i]) => Sample(m, x + taps[i].dx, y + taps[i].dy))
  }

  function Sum(s: seq<u16>): nat
  {
    if s == [] then 0 else s[0] + Sum(s[1..])
  }

  function Mean(s: seq<u16>): real
    requires s != []
  {
    Sum(s) as real / |s| as real
  }

  /** The mean over each tap shape is the corresponding mean the estimate uses. */
  lemma ShapeMeans(m: Mosaic, x: nat, y: nat)
    requires Covers(m) && x >= 1 && y >= 1
    ensures Mean(TapSamples(m, x, y, SITE)) == Sample(m, x, y) as real
    ensures Mean(TapSamples(m, x, y, ORTHOGONAL)) == OrthogonalMean(m, x, y)
    ensures Mean(TapSamples(m, x, y, DIAGONAL)) == DiagonalMean(m, x, y)
    ensures Mean(TapSamples(m, x, y, HORIZONTAL)) == HorizontalMean(m, x, y)
    ensures Mean(TapSamples(m, x, y, VERTICAL)) == VerticalMean(m, x, y)
  {
    SumUpToFour(TapSamples(m, x, y, SITE));
    OrthogonalTapsMean(m, x, y);
    DiagonalTapsMean(m, x, y);
    PairTapsMean(m, x, y);
  }

  lemma OrthogonalTapsMean(m: Mosaic, x: nat, y: nat)
    requires Covers(m) && x >= 1 && y >= 1
    ensures Mean(TapSamples(m, x, y, ORTHOGONAL)) == OrthogonalMean(m, x, y)
  {
    var s := TapSamples(m, x, y, ORTHOGONAL);
    SumUpToFour(s);
    assert s[0] == Sample(m, x - 1, y) && s[1] == Sample(m, x + 1, y);
    assert s[2] == Sample(m, x, y - 1) && s[3] == Sample(m, x, y + 1);
  }

  lemma DiagonalTapsMean(m: Mosaic, x: nat, y: nat)
    requires Covers(m) && x >= 1 && y >= 1
    ensures Mean(TapSamples(m, x, y, DIAGONAL)) == DiagonalMean(m, x, y)
  {
    var s := TapSamples(m, x, y, DIAGONAL);
    SumUpToFour(s);
    assert s[0] == Sample(m, x - 1, y - 1) && s[1] == Sample(m, x + 1, y - 1);
    assert s[2] == Sample(m, x - 1, y + 1) && s[3] == Sample(m, x + 1, y + 1);
  }

  lemma PairTapsMean(m: Mosaic, x: nat, y: nat)
    requires Covers(m) && x >= 1 && y >= 1
    ensures Mean(TapSamples(m, x, y, HORIZONTAL)) == HorizontalMean(m, x, y)
    ensures Mean(TapSamples(m, x, y, VERTICAL)) == VerticalMean(m, x, y)
  {
    var h := TapSamples(m, x, y, HORIZONTAL);
    SumUpToFour(h);
    assert h[0] == Sample(m, x - 1, y) && h[1] == Sample(m, x + 1, y);
    var v := TapSamples(m, x, y, VERTICAL);
    SumUpToFour(v);
    assert v[0] == Sample(m, x, y - 1) && v[1] == Sample(m, x, y + 1);
  }

  /**
   * For RGGB and BGGR, every channel of the estimate is the mean of the
   * samples at the taps the table prescribes.
   */
  lemma EstimateFollowsTable(m: Mosaic, x: nat, y: nat, want: Color)
    requires Covers(m) && x >= 1 && y >= 1 && IsBayer(m.pattern)
    ensures ChannelOf(Estimate(m, x, y), want) == Mean(TapSamples(m, x, y, Taps(m.pattern, y % 2, x % 2, want)))
  {
    ShapeMeans(m, x, y);
  }

  lemma SumUpToFour(s: seq<u16>)
    requires |s| in {1, 2, 4}
    ensures Sum(s) == if |s| == 1 then s[0] as int
                      else if |s| == 2 then s[0] as int + s[1]
                      else s[0] as int + s[1] + s[2] + s[3]
  {
    assert Sum(s) == s[0] + Sum(s[1..]);
    if |s| > 1 {
      var t := s[1..];
      assert Sum(t) == t[0] + Sum(t[1..]);
      if |s| == 4 {
        var u := t[1..];
        assert Sum(u) == u[0] + Sum(u[1..]);
        assert Sum(u[1..]) == u[1] + Sum(u[1..][1..]);
      }
    }
  }

  // ---------------------------------------------------------------------
  // Properties of the estimate.
  // ---------------------------------------------------------------------

  lemma QuotientBetween(total: real, n: real, lo: real, hi: real)
    requires n > 0.0 && n * lo <= total <= n * hi
    ensures lo <= total / n <= hi
  {
  }

  /** A mean of one, two or four samples lies within any bounds of those samples. */
  lemma MeanBetween(s: seq<u16>, lo: int, hi: int)
    requires |s| in {1, 2, 4}
    requires forall i :: 0 <= i < |s| ==> lo <= s[i] <= hi
    ensures lo as real <= Mean(s) <= hi as real
  {
    SumUpToFour(s);
    assert |s| * lo <= Sum(s) <= |s| * hi by {
      if |s| == 2 {
        assert lo <= s[1] <= hi;
      } else if |s| == 4 {
        assert lo <= s[1] <= hi && lo <= s[2] <= hi && lo <= s[3] <= hi;
      }
    }
    QuotientBetween(Sum(s) as real, |s| as real, lo as real, hi as real);
  }

  /**
   * For RGGB and BGGR, each channel of the estimate lies between any lower
   * and upper bound of the samples it reads (so between their minimum and
   * maximum), and therefore within 0..65535.
   */
  lemma EstimateWithinReadSamples(m: Mosaic, x: nat, y: nat, want: Color, lo: int, hi: int)
    requires Covers(m) && x >= 1 && y >= 1 && IsBayer(m.pattern)
    requires var s := TapSamples(m, x, y, Taps(m.pattern, y % 2, x % 2, want));
      forall i :: 0 <= i < |s| ==> lo <= s[i] <= hi
    ensures lo as real <= ChannelOf(Estimate(m, x, y), want) <= hi as real
  {
    EstimateFollowsTable(m, x, y, want);
    MeanBetween(TapSamples(m, x, y, Taps(m.pattern, y % 2, x % 2, want)), lo, hi);
  }

  /** Whatever the pattern, every channel estimate is within the range of a `u16`. */
  lemma EstimateInSampleRange(m: Mosaic, x: nat, y: nat, want: Color)
    requires Covers(m) && x >= 1 && y >= 1
    ensures 0.0 <= ChannelOf(Estimate(m, x, y), want) <= 65535.0
  {
    if IsBayer(m.pattern) {
      EstimateWithinReadSamples(m, x, y, want, 0, 65535);
    }
  }

  function SwapRedBlue(c: Rgb): Rgb
  {
    Rgb(c.b, c.g, c.r)
  }

  /** At every site, the BGGR estimate is the RGGB estimate of the same samples with r and b exchanged. */
  lemma BggrMirrorsRggb(m: Mosaic, x: nat, y: nat)
    requires Covers(m) && x >= 1 && y >= 1 && m.pattern == "BGGR"
    ensures Estimate(m, x, y) == SwapRedBlue(Estimate(m.(pattern := "RGGB"), x, y))
  {
  }

  /** A pattern other than RGGB and BGGR is read as luminance: all three channels are the site's sample. */
  lemma UnknownPatternIsGrey(m: Mosaic, x: nat, y: nat)
    requires Covers(m) && x >= 1 && y >= 1 && !IsBayer(m.pattern)
    ensures var v := Sample(m, x, y) as real; Estimate(m, x, y) == Rgb(v, v, v)
  {
  }

  /**
   * A 4x4 RGGB mosaic whose only non-zero
   * samples, 1000, sit at the blue sites (1,1), (3,1), (1,3), (3,3).  At
   * (1,1) red and green are 0 and blue is the site's 1000.
   */
  lemma PureBlueRggb()
    ensures var samples: seq<u16> := seq(16, i => if i in {5, 7, 13, 15} then 1000 else 0);
      Estimate(Mosaic(samples, 4, 4, "RGGB"), 1, 1) == Rgb(0.0, 0.0, 1000.0)
  {
  }

  predicate Interior(m: Mosaic, x: int, y: int)
  {
    1 <= x <= m.width - 2 && 1 <= y <= m.height - 2
  }

  /**
   * At an interior site every neighbour lies inside the frame, so `get`
   * never falls back to 0 there and reads the row-major sample.
   */
  lemma InteriorReadsInBounds(m: Mosaic, x: nat, y: nat, t: Offset)
    requires Covers(m) && Interior(m, x, y) && Neighbour(t)
    ensures 0 <= x + t.dx < m.width && 0 <= y + t.dy < m.height
    ensures (y + t.dy) * m.width + (x + t.dx) < |m.samples|
    ensures Sample(m, x + t.dx, y + t.dy) == m.samples[(y + t.dy) * m.width + (x + t.dx)]
  {
    RowMajorBound(m.width, m.height, x + t.dx, y + t.dy);
  }

  // ---------------------------------------------------------------------
  // The output buffer: width * height pixels, row-major, three bytes each.
  // ---------------------------------------------------------------------

  /** The calibration arrays, indexed 0, 1, 2 for R, G, B. */
  datatype Levels = Levels(white: seq<u16>, black: seq<u16>, wb: seq<F32>)

  predicate LevelsCover(lv: Levels)
  {
    |lv.white| >= 3 && |lv.black| >= 3 && |lv.wb| >= 3
  }

  function ColorIndex(c: Color): nat
  {
    match c
    case Red => 0
    case Green => 1
    case Blue => 2
  }

  function Calibration(lv: Levels, c: Color): ChannelCalibration
    requires LevelsCover(lv)
  {
    var i := ColorIndex(c);
    ChannelCalibration(lv.black[i], lv.white[i], lv.wb[i])
  }

  /** Channel c of the conditioned pixel at site (x, y). */
  function PixelByte(m: Mosaic, lv: Levels, tone: ToneCurve, x: nat, y: nat, c: Color): byte
    requires Covers(m) && LevelsCover(lv) && x >= 1 && y >= 1
  {
    tone(Calibration(lv, c), ChannelOf(Estimate(m, x, y), c))
  }

  /** Column and row of byte k of a row-major RGB buffer of the given width. */
  function ColOf(width: nat, k: nat): nat
    requires width > 0
  {
    (k / 3) % width
  }

  function RowOf(width: nat, k: nat): nat
    requires width > 0
  {
    (k / 3) / width
  }

  /** Byte k of the output: its channel of an interior pixel, 0 on the border. */
  function OutputByte(m: Mosaic, lv: Levels, tone: ToneCurve, k: nat): byte
    requires Covers(m) && LevelsCover(lv) && m.width > 0
  {
    var x := ColOf(m.width, k);
    var y := RowOf(m.width, k);
    if Interior(m, x, y) then PixelByte(m, lv, tone, x, y, ColorAt(k % 3)) else 0
  }

  /** The whole output buffer. */
  function Demosaiced(m: Mosaic, lv: Levels, tone: ToneCurve): (out: seq<byte>)
    requires Covers(m) && LevelsCover(lv)
    ensures |out| == m.width * m.height * 3
  {
    if m.width == 0 then []
    else seq(m.width * m.height * 3, k requires 0 <= k => OutputByte(m, lv, tone, k))
  }

  lemma {:induction false} MulAtLeast(t: int, d: int)
    requires t >= 1 && d > 0
    ensures t * d >= d
  {
    if t > 1 {
      MulAtLeast(t - 1, d);
      assert t * d == (t - 1) * d + d;
    }
  }

  /** Division and remainder are determined by any decomposition a == q * d + r with 0 <= r < d. */
  lemma DivModUnique(a: int, d: int, q: int, r: int)
    requires d > 0 && 0 <= r < d && a == q * d + r
    ensures a / d == q && a % d == r
  {
    var q', r' := a / d, a % d;
    assert (q' - q) * d == r - r';
    if q' > q {
      MulAtLeast(q' - q, d);
    } else if q' < q {
      MulAtLeast(q - q', d);
    }
  }

  /** Byte c of pixel (x, y) sits at (y * width + x) * 3 + c, and decodes back to (x, y, c). */
  lemma PixelOffset(width: nat, height: nat, x: nat, y: nat, c: nat)
    requires x < width && y < height && c < 3
    ensures (y * width + x) * 3 + c < width * height * 3
    ensures ColOf(width, (y * width + x) * 3 + c) == x
    ensures RowOf(width, (y * width + x) * 3 + c) == y
    ensures ((y * width + x) * 3 + c) % 3 == c
  {
    var p := y * width + x;
    RowMajorBound(width, height, x, y);
    DivModUnique(p * 3 + c, 3, p, c);
    DivModUnique(p, width, y, x);
  }

  /** Two pixels, or two channels, never share a byte of the buffer. */
  lemma PixelOffsetsDisjoint(width: nat, height: nat, x: nat, y: nat, c: nat, x': nat, y': nat, c': nat)
    requires x < width && y < height && c < 3
    requires x' < width && y' < height && c' < 3
    requires (y * width + x) * 3 + c == (y' * width + x') * 3 + c'
    ensures x == x' && y == y' && c == c'
  {
    PixelOffset(width, height, x, y, c);
    PixelOffset(width, height, x', y', c');
  }

  lemma OutputByteAt(m: Mosaic, lv: Levels, tone: ToneCurve, x: nat, y: nat, c: nat)
    requires Covers(m) && LevelsCover(lv) && x < m.width && y < m.height && c < 3
    ensures (y * m.width + x) * 3 + c < m.width * m.height * 3
    ensures ColOf(m.width, (y * m.width + x) * 3 + c) == x
    ensures RowOf(m.width, (y * m.width + x) * 3 + c) == y
    ensures OutputByte(m, lv, tone, (y * m.width + x) * 3 + c) ==
      if Interior(m, x, y) then PixelByte(m, lv, tone, x, y, ColorAt(c)) else 0
  {
    PixelOffset(m.width, m.height, x, y, c);
  }

  /**
   * Pixel (x, y) of the output holds its conditioned estimate when it is
   * interior, and zero bytes when it is on the outer ring.
   */
  lemma DemosaicedPixel(m: Mosaic, lv: Levels, tone: ToneCurve, x: nat, y: nat, c: nat)
    requires Covers(m) && LevelsCover(lv) && x < m.width && y < m.height && c < 3
    ensures (y * m.width + x) * 3 + c < |Demosaiced(m, lv, tone)|
    ensures Demosaiced(m, lv, tone)[(y * m.width + x) * 3 + c] ==
      if Interior(m, x, y) then PixelByte(m, lv, tone, x, y, ColorAt(c)) else 0
  {
    OutputByteAt(m, lv, tone, x, y, c);
  }

  /** The outer one-pixel ring is black. */
  lemma BorderIsBlack(m: Mosaic, lv: Levels, tone: ToneCurve, x: nat, y: nat, c: nat)
    requires Covers(m) && LevelsCover(lv) && x < m.width && y < m.height && c < 3
    requires x == 0 || y == 0 || x == m.width - 1 || y == m.height - 1
    ensures (y * m.width + x) * 3 + c < |Demosaiced(m, lv, tone)|
    ensures Demosaiced(m, lv, tone)[(y * m.width + x) * 3 + c] == 0
  {
    DemosaicedPixel(m, lv, tone, x, y, c);
    assert !Interior(m, x, y);
  }

  /** A frame at most two pixels wide or high has no interior pixel: the whole output is zero. */
  lemma NarrowFrameIsBlack(m: Mosaic, lv: Levels, tone: ToneCurve, k: nat)
    requires Covers(m) && LevelsCover(lv) && (m.width <= 2 || m.height <= 2)
    requires k < |Demosaiced(m, lv, tone)|
    ensures Demosaiced(m, lv, tone)[k] == 0
  {
  }

  /**
   * For an unknown pattern with the same calibration on all three channels,
   * every interior pixel is grey: its three bytes are equal.
   */
  lemma UnknownPatternGreyPixels(m: Mosaic, lv: Levels, tone: ToneCurve, x: nat, y: nat)
    requires Covers(m) && LevelsCover(lv) && !IsBayer(m.pattern) && Interior(m, x, y)
    requires Calibration(lv, Red) == Calibration(lv, Green) == Calibration(lv, Blue)
    ensures var d := Demosaiced(m, lv, tone); var i := (y * m.width + x) * 3;
      i + 2 < |d| && d[i] == d[i + 1] == d[i + 2]
  {
    DemosaicedPixel(m, lv, tone, x, y, 0);
    DemosaicedPixel(m, lv, tone, x, y, 1);
    DemosaicedPixel(m, lv, tone, x, y, 2);
  }

  // ---------------------------------------------------------------------
  // The demosaic loop itself.
  // ---------------------------------------------------------------------

  /**
   * The state of the buffer while the loop is at column x of row y: every
   * byte of a pixel visited before (x, y) in row-major order holds its final
   * value and every other byte is still zero.
   */
  ghost predicate Filled(buf: seq<byte>, m: Mosaic, lv: Levels, tone: ToneCurve, y: nat, x: nat)
    requires Covers(m) && LevelsCover(lv) && m.width > 0
  {
    |buf| == m.width * m.height * 3 &&
    forall k :: 0 <= k < |buf| ==>
      buf[k] == if RowOf(m.width, k) < y || (RowOf(m.width, k) == y && ColOf(m.width, k) < x)
                then OutputByte(m, lv, tone, k) else 0
  }

  /** A byte outside the three of pixel (x, y) belongs to another pixel. */
  lemma OtherPixel(w: nat, k: nat, x: nat, y: nat)
    requires w > 0
    requires k < (y * w + x) * 3 || k >= (y * w + x) * 3 + 3
    ensures !(RowOf(w, k) == y && ColOf(w, k) == x)
  {
    var p := k / 3;
    assert p == (p / w) * w + p % w;
  }

  /** Writing the three bytes of interior pixel (x, y) moves the loop to column x + 1. */
  lemma FillPixel(buf: seq<byte>, m: Mosaic, lv: Levels, tone: ToneCurve, y: nat, x: nat)
    requires Covers(m) && LevelsCover(lv) && Interior(m, x, y)
    requires Filled(buf, m, lv, tone, y, x)
    ensures (y * m.width + x) * 3 + 2 < |buf|
    ensures var i := (y * m.width + x) * 3;
      Filled(buf[i := PixelByte(m, lv, tone, x, y, Red)]
                 [i + 1 := PixelByte(m, lv, tone, x, y, Green)]
                 [i + 2 := PixelByte(m, lv, tone, x, y, Blue)], m, lv, tone, y, x + 1)
  {
    var w := m.width;
    var i := (y * w + x) * 3;
    OutputByteAt(m, lv, tone, x, y, 2);
    var buf' := buf[i := PixelByte(m, lv, tone, x, y, Red)]
                   [i + 1 := PixelByte(m, lv, tone, x, y, Green)]
                   [i + 2 := PixelByte(m, lv, tone, x, y, Blue)];
    forall k | 0 <= k < |buf'|
      ensures buf'[k] == if RowOf(w, k) < y || (RowOf(w, k) == y && ColOf(w, k) < x + 1)
                         then OutputByte(m, lv, tone, k) else 0
    {
      if i <= k < i + 3 {
        OutputByteAt(m, lv, tone, x, y, k - i);
      } else {
        OtherPixel(w, k, x, y);
        assert buf'[k] == buf[k];
      }
    }
  }

  /** Column 0 is border, so a row can start at column 1. */
  lemma FillRowStart(buf: seq<byte>, m: Mosaic, lv: Levels, tone: ToneCurve, y: nat)
    requires Covers(m) && LevelsCover(lv) && m.width > 0
    requires Filled(buf, m, lv, tone, y, 0)
    ensures Filled(buf, m, lv, tone, y, 1)
  {
  }

  /** Columns from width - 1 on are border, so a row ends there. */
  lemma FillRowEnd(buf: seq<byte>, m: Mosaic, lv: Levels, tone: ToneCurve, y: nat, x: nat)
    requires Covers(m) && LevelsCover(lv) && m.width > 0 && x >= m.width - 1
    requires Filled(buf, m, lv, tone, y, x)
    ensures Filled(buf, m, lv, tone, y + 1, 0)
  {
  }

  /** Rows from height - 1 on are border, so after them the buffer is the whole output. */
  lemma FillDone(buf: seq<byte>, m: Mosaic, lv: Levels, tone: ToneCurve, y: nat)
    requires Covers(m) && LevelsCover(lv) && m.width > 0 && y >= m.height - 1
    requires Filled(buf, m, lv, tone, y, 0)
    ensures buf == Demosaiced(m, lv, tone)
  {
  }

  /**
   * The body of the inner loop: the estimate at interior pixel (x, y),
   * conditioned with each channel's calibration, written to the pixel's
   * three bytes, which moves the fill to column x + 1.
   */
  method WritePixel(buffer: array<byte>, m: Mosaic, ghost lv: Levels, tone: ToneCurve,
                    calR: ChannelCalibration, calG: ChannelCalibration, calB: ChannelCalibration,
                    x: nat, y: nat)
    requires Covers(m) && LevelsCover(lv) && Interior(m, x, y)
    requires calR == Calibration(lv, Red) && calG == Calibration(lv, Green) && calB == Calibration(lv, Blue)
    requires Filled(buffer[..], m, lv, tone, y, x)
    modifies buffer
    ensures Filled(buffer[..], m, lv, tone, y, x + 1)
  {
    ghost var before := buffer[..];
    FillPixel(before, m, lv, tone, y, x);
    var idx := (y * m.width + x) * 3;
    var rgb := Estimate(m, x, y);
    assert tone(calR, rgb.r) == PixelByte(m, lv, tone, x, y, Red);
    assert tone(calG, rgb.g) == PixelByte(m, lv, tone, x, y, Green);
    assert tone(calB, rgb.b) == PixelByte(m, lv, tone, x, y, Blue);
    buffer[idx] := tone(calR, rgb.r);
    buffer[idx + 1] := tone(calG, rgb.g);
    buffer[idx + 2] := tone(calB, rgb.b);
    assert buffer[..] == before[idx := PixelByte(m, lv, tone, x, y, Red)]
                               [idx + 1 := PixelByte(m, lv, tone, x, y, Green)]
                               [idx + 2 := PixelByte(m, lv, tone, x, y, Blue)];
  }

  /**
   * `demosaic_bilinear`: a zeroed buffer of width * height * 3 bytes, then
   * for each interior row and column the site's estimate, conditioned per
   * channel with that channel's calibration, written to the pixel's three
   * bytes.  Requires what the source needs to run without a panic: a
   * non-empty frame height (`height - 1` must not underflow), a non-zero
   * width whenever some row is visited, samples covering the frame and
   * calibration arrays of at least three entries.
   */
  method DemosaicBilinear(input: seq<u16>, width: nat, height: nat, pattern: string,
                          whitelevels: seq<u16>, blacklevels: seq<u16>, wbCoeffs: seq<F32>,
                          tone: ToneCurve)
    returns (output: seq<byte>)
    requires height >= 1 && (width >= 1 || height <= 2)
    requires |input| >= width * height
    requires |whitelevels| >= 3 && |blacklevels| >= 3 && |wbCoeffs| >= 3
    ensures output == Demosaiced(Mosaic(input, width, height, pattern), Levels(whitelevels, blacklevels, wbCoeffs), tone)
  {
    var m := Mosaic(input, width, height, pattern);
    ghost var lv := Levels(whitelevels, blacklevels, wbCoeffs);
    var buffer := new byte[width * height * 3](_ => 0);
    if width == 0 {
      return buffer[..];
    }

    var calR := ChannelCalibration(blacklevels[0], whitelevels[0], wbCoeffs[0]);
    var calG := ChannelCalibration(blacklevels[1], whitelevels[1], wbCoeffs[1]);
    var calB := ChannelCalibration(blacklevels[2], whitelevels[2], wbCoeffs[2]);

    var y := 1;
    while y < height - 1
      invariant 1 <= y && (y <= height - 1 || y == 1)
      invariant Filled(buffer[..], m, lv, tone, y, 0)
    {
      FillRowStart(buffer[..], m, lv, tone, y);
      var x := 1;
      while x < width - 1
        invariant 1 <= x && (x <= width - 1 || x == 1)
        invariant Filled(buffer[..], m, lv, tone, y, x)
      {
        WritePixel(buffer, m, lv, tone, calR, calG, calB, x, y);
        x := x + 1;
      }
      FillRowEnd(buffer[..], m, lv, tone, y, x);
      y := y + 1;
    }
    FillDone(buffer[..], m, lv, tone, y);
    output := buffer[..];
  }
}

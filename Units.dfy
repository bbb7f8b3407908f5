/** Unit conversions for the measurements the extractor reports. Python's
    float division and `round(x, k)` are replaced by exact integer arithmetic:
    every converted value is an integer count of tenths or hundredths of the
    display unit, rounded to nearest with ties to even. */
module Units {

  /** English Metric Units in one point and in one centimetre, and twips
      (twentieths of a point) in one point. */
  const EmuPerPoint: int := 12700
  const EmuPerCm: int := 360000
  const TwipsPerPoint: int := 20

  /** `n / d` rounded to the nearest integer, ties to the even neighbour. */
  function RoundDiv(n: int, d: int): (r: int)
    requires d > 0
    ensures -d <= 2 * (n - r * d) <= d
    ensures (2 * (n - r * d) == d || 2 * (n - r * d) == -d) ==> r % 2 == 0
    ensures n % d == 0 ==> r * d == n
  {
    var q, m := n / d, n % d;
    assert n - q * d == m;
    if 2 * m < d then q
    else if 2 * m > d then
      assert n - (q + 1) * d == m - d;
      q + 1
    else if q % 2 == 0 then q
    else
      assert n - (q + 1) * d == m - d;
      q + 1
  }

  /** The two bounds of `RoundDiv` pick out a single integer: they are a
      definition of rounding independent of the division used to compute it. */
  lemma RoundDivUnique(n: int, d: int, r: int)
    requires d > 0
    requires -d <= 2 * (n - r * d) <= d
    requires (2 * (n - r * d) == d || 2 * (n - r * d) == -d) ==> r % 2 == 0
    ensures r == RoundDiv(n, d)
  {
    var r0 := RoundDiv(n, d);
    var k := r - r0;
    Distribute(r, r0, d);
    // (n - r0 * d) - (n - r * d) == k * d, both halves lie in [-d, d]
    if k >= 1 {
      AtLeastOnce(k, d);
      assert false;
    } else if k <= -1 {
      AtLeastOnce(-k, d);
      Distribute(0, k, d);
      assert false;
    }
  }

  lemma Distribute(x: int, y: int, d: int)
    ensures (x - y) * d == x * d - y * d
  {
  }

  lemma AtLeastOnce(k: int, d: int)
    requires k >= 1 && d > 0
    ensures k * d >= d
  {
  }

  /** Line spacing: twips to hundredths of a point. Dividing by 20 and keeping
      two decimals loses nothing, so the value is exact. */
  function TwipsToHundredthsPt(v: int): (h: int)
    ensures h * TwipsPerPoint == v * 100
  {
    v * 5
  }

  /** Font size: EMU to tenths of a point, within half a tenth. */
  function EmuToTenthsPt(e: int): (t: int)
    ensures -EmuPerPoint <= 2 * (e * 10 - t * EmuPerPoint) <= EmuPerPoint
  {
    RoundDiv(e * 10, EmuPerPoint)
  }

  /** Paragraph spacing: EMU to hundredths of a point, within half a hundredth. */
  function EmuToHundredthsPt(e: int): (h: int)
    ensures -EmuPerPoint <= 2 * (e * 100 - h * EmuPerPoint) <= EmuPerPoint
  {
    RoundDiv(e * 100, EmuPerPoint)
  }

  /** Indentation: EMU to hundredths of a centimetre, within half a hundredth. */
  function EmuToHundredthsCm(e: int): (h: int)
    ensures -EmuPerCm <= 2 * (e * 100 - h * EmuPerCm) <= EmuPerCm
  {
    RoundDiv(e * 100, EmuPerCm)
  }

  /** A whole number of points converts without loss: 12 pt (152400 EMU) is
      120 tenths and 1200 hundredths. */
  lemma WholePointsExact(p: int)
    ensures EmuToTenthsPt(p * EmuPerPoint) == p * 10
    ensures EmuToHundredthsPt(p * EmuPerPoint) == p * 100
  {
    RoundDivUnique(p * EmuPerPoint * 10, EmuPerPoint, p * 10);
    RoundDivUnique(p * EmuPerPoint * 100, EmuPerPoint, p * 100);
  }

  /** 240 twips of line spacing is 12.00 pt; 0 twips is 0.00 pt. */
  lemma LineSpacingExamples()
    ensures TwipsToHundredthsPt(240) == 1200
    ensures TwipsToHundredthsPt(0) == 0
  {
  }
}

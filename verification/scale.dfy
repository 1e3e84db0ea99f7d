/** The density scale factors of the current plugin (util/RefactorUtils.java). */
module ScaleFactors {
  import opened Densities

  /** Pixels per MDPI pixel: the Android density buckets, stated
      independently of the table below. */
  function DensityOf(r: Resolution): (d: real)
    ensures d > 0.0
  {
    match r
    case LDPI => 0.5
    case MDPI => 1.0
    case TVDPI => 4.0 / 3.0
    case HDPI => 1.5
    case XHDPI => 2.0
    case XXHDPI => 3.0
    case XXXHDPI => 4.0
  }

  /** `getScaleFactor(target, baseLine)`: the factor by which an image drawn
      for `baseline` is resized to serve `target`, as the source's table
      writes it (a baseline multiplier times the target's MDPI factor).
      Every one of the 49 entries is the ratio of the two densities, so the
      IllegalArgumentException after the table is unreachable. */
  function ScaleFactor(target: Resolution, baseline: Resolution): (f: real)
    ensures f == DensityOf(target) / DensityOf(baseline)
    ensures f > 0.0
  {
    match baseline
    case MDPI =>
      (match target
      case LDPI => 0.5
      case MDPI => 1.0
      case HDPI => 1.5
      case XHDPI => 2.0
      case XXHDPI => 3.0
      case XXXHDPI => 4.0
      case TVDPI => 4.0 / 3.0)
    case LDPI =>
      (match target
      case LDPI => 2.0 * 0.5
      case MDPI => 2.0 * 1.0
      case HDPI => 2.0 * 1.5
      case XHDPI => 2.0 * 2.0
      case XXHDPI => 2.0 * 3.0
      case XXXHDPI => 2.0 * 4.0
      case TVDPI => 2.0 * 4.0 / 3.0)
    case HDPI =>
      (match target
      case LDPI => 2.0 / 3.0 * 0.5
      case MDPI => 2.0 / 3.0 * 1.0
      case HDPI => 2.0 / 3.0 * 1.5
      case XHDPI => 2.0 / 3.0 * 2.0
      case XXHDPI => 2.0 / 3.0 * 3.0
      case XXXHDPI => 2.0 / 3.0 * 4.0
      case TVDPI => 2.0 / 3.0 * 4.0 / 3.0)
    case XHDPI =>
      (match target
      case LDPI => 1.0 / 2.0 * 0.5
      case MDPI => 1.0 / 2.0 * 1.0
      case HDPI => 1.0 / 2.0 * 1.5
      case XHDPI => 1.0 / 2.0 * 2.0
      case XXHDPI => 1.0 / 2.0 * 3.0
      case XXXHDPI => 1.0 / 2.0 * 4.0
      case TVDPI => 1.0 / 2.0 * 4.0 / 3.0)
    case XXHDPI =>
      (match target
      case LDPI => 1.0 / 3.0 * 0.5
      case MDPI => 1.0 / 3.0 * 1.0
      case HDPI => 1.0 / 3.0 * 1.5
      case XHDPI => 1.0 / 3.0 * 2.0
      case XXHDPI => 1.0 / 3.0 * 3.0
      case XXXHDPI => 1.0 / 3.0 * 4.0
      case TVDPI => 1.0 / 3.0 * 4.0 / 3.0)
    case XXXHDPI =>
      (match target
      case LDPI => 1.0 / 4.0 * 0.5
      case MDPI => 1.0 / 4.0 * 1.0
      case HDPI => 1.0 / 4.0 * 1.5
      case XHDPI => 1.0 / 4.0 * 2.0
      case XXHDPI => 1.0 / 4.0 * 3.0
      case XXXHDPI => 1.0 / 4.0 * 4.0
      case TVDPI => 1.0 / 4.0 * 4.0 / 3.0)
    case TVDPI =>
      (match target
      case LDPI => 3.0 / 4.0 * 0.5
      case MDPI => 3.0 / 4.0 * 1.0
      case HDPI => 3.0 / 4.0 * 1.5
      case XHDPI => 3.0 / 4.0 * 2.0
      case XXHDPI => 3.0 / 4.0 * 3.0
      case XXXHDPI => 3.0 / 4.0 * 4.0
      case TVDPI => 3.0 / 4.0 * 4.0 / 3.0)
  }

  /** A resolution scaled to itself keeps its size. */
  lemma ScaleFactorIdentity(r: Resolution)
    ensures ScaleFactor(r, r) == 1.0
  {
  }

  /** Scaling there and back is the identity. */
  lemma ScaleFactorInverse(a: Resolution, b: Resolution)
    ensures ScaleFactor(a, b) * ScaleFactor(b, a) == 1.0
  {
  }

  /** Scaling in two steps equals scaling in one. */
  lemma ScaleFactorChain(a: Resolution, b: Resolution, c: Resolution)
    ensures ScaleFactor(a, b) * ScaleFactor(b, c) == ScaleFactor(a, c)
  {
  }

  /** The resolutions from the sparsest to the densest. */
  const Ascending: seq<Resolution> := [LDPI, MDPI, TVDPI, HDPI, XHDPI, XXHDPI, XXXHDPI]

  /** For any baseline, a denser target gets a strictly larger factor. */
  lemma ScaleFactorMonotone(baseline: Resolution)
    ensures forall i, j :: 0 <= i < j < |Ascending| ==>
      ScaleFactor(Ascending[i], baseline) < ScaleFactor(Ascending[j], baseline)
  {
    forall i, j | 0 <= i < j < |Ascending|
      ensures ScaleFactor(Ascending[i], baseline) < ScaleFactor(Ascending[j], baseline)
    {
      DivideMonotone(DensityOf(Ascending[i]), DensityOf(Ascending[j]), DensityOf(baseline));
    }
  }

  lemma DivideMonotone(x: real, y: real, d: real)
    requires x < y && d > 0.0
    ensures x / d < y / d
  {
  }
}

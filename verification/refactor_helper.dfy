/** The scale table and temporary-file layout of the earlier plugin
    generation (util/RefactorHelper.java), whose table has no TVDPI row
    or column. */
module RefactorHelper {
  import opened Wrappers
  import opened Strings
  import opened Densities
  import opened ScaleFactors

  /** `getScaleFactor`: throws IllegalArgumentException for a TVDPI target or baseline. */
  function LegacyScaleFactor(target: Resolution, baseline: Resolution): (r: Result<real>)
    ensures r.Ok? <==> target != TVDPI && baseline != TVDPI
    ensures r.Err? ==> r.error == IllegalArgument
    ensures r.Ok? ==> r.value == DensityOf(target) / DensityOf(baseline)
  {
    match baseline
    case MDPI =>
      (match target
      case LDPI => Ok(0.5)
      case MDPI => Ok(1.0)
      case HDPI => Ok(1.5)
      case XHDPI => Ok(2.0)
      case XXHDPI => Ok(3.0)
      case XXXHDPI => Ok(4.0)
      case TVDPI => Err(IllegalArgument))
    case LDPI =>
      (match target
      case LDPI => Ok(2.0 * 0.5)
      case MDPI => Ok(2.0 * 1.0)
      case HDPI => Ok(2.0 * 1.5)
      case XHDPI => Ok(2.0 * 2.0)
      case XXHDPI => Ok(2.0 * 3.0)
      case XXXHDPI => Ok(2.0 * 4.0)
      case TVDPI => Err(IllegalArgument))
    case HDPI =>
      (match target
      case LDPI => Ok(2.0 / 3.0 * 0.5)
      case MDPI => Ok(2.0 / 3.0 * 1.0)
      case HDPI => Ok(2.0 / 3.0 * 1.5)
      case XHDPI => Ok(2.0 / 3.0 * 2.0)
      case XXHDPI => Ok(2.0 / 3.0 * 3.0)
      case XXXHDPI => Ok(2.0 / 3.0 * 4.0)
      case TVDPI => Err(IllegalArgument))
    case XHDPI =>
      (match target
      case LDPI => Ok(1.0 / 2.0 * 0.5)
      case MDPI => Ok(1.0 / 2.0 * 1.0)
      case HDPI => Ok(1.0 / 2.0 * 1.5)
      case XHDPI => Ok(1.0 / 2.0 * 2.0)
      case XXHDPI => Ok(1.0 / 2.0 * 3.0)
      case XXXHDPI => Ok(1.0 / 2.0 * 4.0)
      case TVDPI => Err(IllegalArgument))
    case XXHDPI =>
      (match target
      case LDPI => Ok(1.0 / 3.0 * 0.5)
      case MDPI => Ok(1.0 / 3.0 * 1.0)
      case HDPI => Ok(1.0 / 3.0 * 1.5)
      case XHDPI => Ok(1.0 / 3.0 * 2.0)
      case XXHDPI => Ok(1.0 / 3.0 * 3.0)
      case XXXHDPI => Ok(1.0 / 3.0 * 4.0)
      case TVDPI => Err(IllegalArgument))
    case XXXHDPI =>
      (match target
      case LDPI => Ok(1.0 / 4.0 * 0.5)
      case MDPI => Ok(1.0 / 4.0 * 1.0)
      case HDPI => Ok(1.0 / 4.0 * 1.5)
      case XHDPI => Ok(1.0 / 4.0 * 2.0)
      case XXHDPI => Ok(1.0 / 4.0 * 3.0)
      case XXXHDPI => Ok(1.0 / 4.0 * 4.0)
      case TVDPI => Err(IllegalArgument))
    case TVDPI => Err(IllegalArgument)
  }

  /** The table agrees with the current one wherever it has an entry, and it
      has an entry exactly when neither side is TVDPI. */
  lemma LegacyScaleFactorAgrees(target: Resolution, baseline: Resolution)
    ensures LegacyScaleFactor(target, baseline).Ok? <==> target != TVDPI && baseline != TVDPI
    ensures LegacyScaleFactor(target, baseline).Ok? ==>
      LegacyScaleFactor(target, baseline).value == ScaleFactor(target, baseline)
    ensures LegacyScaleFactor(target, baseline).Err? ==>
      LegacyScaleFactor(target, baseline).error == IllegalArgument
  {
  }

  /** `getTempImageFile(tempDir, resolution, exportName)`. */
  function TempImageFile(tempDir: string, resolution: Resolution, exportName: Option<string>): (r: string)
    ensures StartsWith(r, tempDir + "/plugin-images/" + Name(resolution) + "/")
    ensures EndsWith(r, "/" + Text(exportName))
  {
    tempDir + "/plugin-images/" + Name(resolution) + "/" + Text(exportName)
  }

  /** Within one temporary folder, two images share a temporary file only if
      they have the same resolution and the same export name. */
  lemma TempImageFileInjective(tempDir: string, r1: Resolution, e1: Option<string>,
                               r2: Resolution, e2: Option<string>)
    requires TempImageFile(tempDir, r1, e1) == TempImageFile(tempDir, r2, e2)
    ensures r1 == r2 && Text(e1) == Text(e2)
  {
    var p := tempDir + "/plugin-images/";
    assert TempImageFile(tempDir, r1, e1) == p + Name(r1) + ['/'] + Text(e1) + "";
    assert TempImageFile(tempDir, r2, e2) == p + Name(r2) + ['/'] + Text(e2) + "";
    FramedSegmentsEqual(p, Name(r1), Text(e1), Name(r2), Text(e2), "", '/');
    LabelIsLowerName(r1);
    LabelIsLowerName(r2);
  }
}

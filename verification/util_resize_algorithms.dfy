/** The four-algorithm variant of util/ResizeAlgorithm.java. Its `getMethod`
    for IMAGE has no `break`, so an unlisted name falls into the
    THUMBNAILATOR case and yields null instead of an exception. */
module UtilResizeAlgorithms {
  import opened Wrappers
  import RA = ResizeAlgorithms

  datatype UtilAlgorithm = SCALR | GRAPHICS | IMAGE | THUMBNAILATOR

  function UtilAlgorithmName(a: UtilAlgorithm): string {
    match a
    case SCALR => "Scalr"
    case GRAPHICS => "Graphics"
    case IMAGE => "Image"
    case THUMBNAILATOR => "Thumbnailator"
  }

  /** `getMethods()`. */
  function UtilMethods(a: UtilAlgorithm): (ms: seq<string>)
    ensures |ms| > 0
    ensures forall i, j :: 0 <= i < j < |ms| ==> ms[i] != ms[j]
  {
    match a
    case SCALR => ["Automatic", "Speed", "Balanced", "Quality", "Ultra Quality"]
    case GRAPHICS => ["Default", "Bilinear", "Bicubic", "Nearest neighbor"]
    case IMAGE => ["Default", "Smooth", "Fast", "Replicate", "Area averaging"]
    case THUMBNAILATOR => ["Default"]
  }

  /** `getMethod(name)`, with IMAGE's fall-through written out. */
  function UtilMethod(a: UtilAlgorithm, name: Option<string>): (r: Result<Option<RA.Method>>)
    // Every listed name of GRAPHICS and IMAGE is accepted, as are all names for IMAGE and THUMBNAILATOR.
    ensures a == IMAGE || a == THUMBNAILATOR ==> r.Ok?
    ensures a == THUMBNAILATOR ==> r == Ok(None)
    ensures a == IMAGE ==> (r.value.Some? <==> name.Some? && name.value in UtilMethods(IMAGE))
    ensures a == GRAPHICS ==> (r.Ok? <==> name.Some? && name.value in UtilMethods(GRAPHICS))
    ensures a == GRAPHICS && r.Ok? ==> (r.value.None? <==> name == Some("Default"))
    ensures a == SCALR ==> (r.Ok? <==> name.Some? && name.value in UtilMethods(SCALR))
    ensures a == SCALR && r.Ok? ==> r.value.Some?
    ensures r.Err? ==> r.error == IllegalArgument
  {
    match a
    case SCALR => RA.GetMethod(RA.SCALR, name)
    case GRAPHICS =>
      if name == Some("Bilinear") then Ok(Some(RA.Bilinear))
      else if name == Some("Bicubic") then Ok(Some(RA.Bicubic))
      else if name == Some("Nearest neighbor") then Ok(Some(RA.NearestNeighbor))
      else if name == Some("Default") then Ok(None)
      else Err(IllegalArgument)
    case IMAGE =>
      if name == Some("Default") then Ok(Some(RA.ScaleDefault))
      else if name == Some("Smooth") then Ok(Some(RA.ScaleSmooth))
      else if name == Some("Fast") then Ok(Some(RA.ScaleFast))
      else if name == Some("Replicate") then Ok(Some(RA.ScaleReplicate))
      else if name == Some("Area averaging") then Ok(Some(RA.ScaleAreaAveraging))
      else Ok(None)
    case THUMBNAILATOR => Ok(None)
  }

  /** Only SCALR and GRAPHICS can throw for a method name. */
  lemma OnlyScalrAndGraphicsThrow(a: UtilAlgorithm, name: Option<string>)
    ensures UtilMethod(a, name).Err? ==> a == SCALR || a == GRAPHICS
    ensures UtilMethod(a, name).Err? <==> (a == SCALR || a == GRAPHICS) && !(name.Some? && name.value in UtilMethods(a))
  {
  }

  /** `ResizeAlgorithm.from`. */
  function UtilFrom(name: Option<string>): (r: Result<UtilAlgorithm>)
    ensures r.Ok? <==> name.Some? && exists a :: UtilAlgorithmName(a) == name.value
    ensures r.Ok? ==> UtilAlgorithmName(r.value) == name.value
    ensures r.Err? ==> r.error == IllegalArgument
  {
    if name == Some("Scalr") then assert UtilAlgorithmName(SCALR) == name.value; Ok(SCALR)
    else if name == Some("Graphics") then assert UtilAlgorithmName(GRAPHICS) == name.value; Ok(GRAPHICS)
    else if name == Some("Image") then assert UtilAlgorithmName(IMAGE) == name.value; Ok(IMAGE)
    else if name == Some("Thumbnailator") then assert UtilAlgorithmName(THUMBNAILATOR) == name.value; Ok(THUMBNAILATOR)
    else
      assert forall a :: name != Some(UtilAlgorithmName(a));
      Err(IllegalArgument)
  }

  lemma UtilFromRoundTrip(a: UtilAlgorithm)
    ensures UtilFrom(Some(UtilAlgorithmName(a))) == Ok(a)
  {
  }
}

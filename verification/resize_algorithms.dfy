/** The resize algorithms of images/ResizeAlgorithm.java: Scalr and
    Thumbnailator, with their method names. The algorithm objects a method
    name maps to are modelled by `Method`. */
module ResizeAlgorithms {
  import opened Wrappers

  datatype Algorithm = SCALR | THUMBNAILATOR

  /** The objects `getMethod` can return (Scalr.Method constants, AWT
      interpolation hints and `Image.SCALE_*` flags). */
  datatype Method =
    | Automatic | Speed | Balanced | Quality | UltraQuality
    | Bilinear | Bicubic | NearestNeighbor
    | ScaleDefault | ScaleSmooth | ScaleFast | ScaleReplicate | ScaleAreaAveraging

  /** `toString()`: the display name given to the constant. */
  function AlgorithmName(a: Algorithm): string {
    match a
    case SCALR => "Scalr"
    case THUMBNAILATOR => "Thumbnailator"
  }

  /** `getMethods()`. */
  function GetMethods(a: Algorithm): (ms: seq<string>)
    ensures |ms| > 0
    ensures forall i, j :: 0 <= i < j < |ms| ==> ms[i] != ms[j]
  {
    match a
    case SCALR => ["Automatic", "Speed", "Balanced", "Quality", "Ultra Quality"]
    case THUMBNAILATOR => ["Default"]
  }

  /** `getMethod(name)`: Scalr maps its listed names to its methods and
      throws for any other string; Thumbnailator returns null for every string. */
  function GetMethod(a: Algorithm, name: Option<string>): (r: Result<Option<Method>>)
    ensures a == THUMBNAILATOR ==> r == Ok(None)
    ensures a == SCALR ==> (r.Ok? <==> name.Some? && name.value in GetMethods(SCALR))
    ensures a == SCALR && r.Ok? ==> r.value.Some?
    ensures r.Err? ==> r.error == IllegalArgument
  {
    match a
    case SCALR =>
      if name == Some("Automatic") then Ok(Some(Automatic))
      else if name == Some("Speed") then Ok(Some(Speed))
      else if name == Some("Balanced") then Ok(Some(Balanced))
      else if name == Some("Quality") then Ok(Some(Quality))
      else if name == Some("Ultra Quality") then Ok(Some(UltraQuality))
      else Err(IllegalArgument)
    case THUMBNAILATOR => Ok(None)
  }

  /** Scalr's listed names map to pairwise different methods. */
  lemma ScalrMethodsDistinct(i: nat, j: nat)
    requires i < j < |GetMethods(SCALR)|
    ensures GetMethod(SCALR, Some(GetMethods(SCALR)[i])) != GetMethod(SCALR, Some(GetMethods(SCALR)[j]))
  {
  }

  /** `ResizeAlgorithm.from`: an exact display name, otherwise IllegalArgumentException. */
  function From(name: Option<string>): (r: Result<Algorithm>)
    ensures r.Ok? <==> name.Some? && exists a :: AlgorithmName(a) == name.value
    ensures r.Ok? ==> AlgorithmName(r.value) == name.value
    ensures r.Err? ==> r.error == IllegalArgument
  {
    if name == Some("Scalr") then assert AlgorithmName(SCALR) == name.value; Ok(SCALR)
    else if name == Some("Thumbnailator") then assert AlgorithmName(THUMBNAILATOR) == name.value; Ok(THUMBNAILATOR)
    else
      assert forall a :: name != Some(AlgorithmName(a));
      Err(IllegalArgument)
  }

  lemma FromRoundTrip(a: Algorithm)
    ensures From(Some(AlgorithmName(a))) == Ok(a)
  {
  }
}

/** Output formats (model/Format.java) and resource folder kinds
    (model/Destination.java) of the current plugin. */
module Formats {
  import opened Wrappers
  import opened Strings
  import TextUtils

  datatype Format = JPG | PNG | XML

  /** `toString()`: the constant's name. */
  function FormatName(f: Format): string {
    match f
    case JPG => "JPG"
    case PNG => "PNG"
    case XML => "XML"
  }

  /** The file extension `getTargetFile` uses: the lower-case name. */
  function Extension(f: Format): (e: string)
    ensures e == ToLower(FormatName(f))
  {
    match f
    case JPG => "jpg"
    case PNG => "png"
    case XML => "xml"
  }

  /** `nonVectorValues()`. */
  const NonVectorValues: seq<Format> := [JPG, PNG]

  lemma NonVectorValuesAreRaster()
    ensures forall f :: f in NonVectorValues <==> f != XML
  {
  }

  /** `Format.from`: null or empty throws; otherwise the format whose name
      matches ignoring case, or null. */
  function From(value: Option<string>): (r: Result<Option<Format>>)
    ensures TextUtils.IsEmpty(value) <==> r == Err(IllegalArgument)
    ensures !TextUtils.IsEmpty(value) ==> r.Ok?
  {
    if TextUtils.IsEmpty(value) then Err(IllegalArgument)
    else if EqualsIgnoreCase(value.value, FormatName(JPG)) then Ok(Some(JPG))
    else if EqualsIgnoreCase(value.value, FormatName(PNG)) then Ok(Some(PNG))
    else if EqualsIgnoreCase(value.value, FormatName(XML)) then Ok(Some(XML))
    else Ok(None)
  }

  /** A value parses to `f` exactly when it spells `f`'s name in any case,
      and to null exactly when it spells none. */
  lemma FromIgnoringCase(v: string, f: Format)
    requires v != ""
    ensures From(Some(v)) == Ok(Some(f)) <==> ToLower(v) == Extension(f)
    ensures From(Some(v)) == Ok(None) <==> forall g :: ToLower(v) != Extension(g)
  {
    forall g ensures EqualsIgnoreCase(v, FormatName(g)) <==> ToLower(v) == Extension(g) {
      assert Extension(g) == ToLower(FormatName(g));
    }
  }

  /** The name and the extension of a format both parse back to it. */
  lemma FromName(f: Format)
    ensures From(Some(FormatName(f))) == Ok(Some(f))
    ensures From(Some(Extension(f))) == Ok(Some(f))
  {
    FromIgnoringCase(FormatName(f), f);
    FromIgnoringCase(Extension(f), f);
  }

  /** `Format.valueOf`: an exact constant name, otherwise IllegalArgumentException
      (NullPointerException for null). */
  function ValueOf(name: Option<string>): (r: Result<Format>)
    ensures r.Ok? <==> name.Some? && exists f :: FormatName(f) == name.value
    ensures r.Ok? ==> FormatName(r.value) == name.value
    ensures name.None? ==> r == Err(NullPointer)
    ensures name.Some? && r.Err? ==> r.error == IllegalArgument
  {
    match name
    case None => Err(NullPointer)
    case Some(n) =>
      if n == "JPG" then assert FormatName(JPG) == n; Ok(JPG)
      else if n == "PNG" then assert FormatName(PNG) == n; Ok(PNG)
      else if n == "XML" then assert FormatName(XML) == n; Ok(XML)
      else
        assert forall f :: FormatName(f) != n;
        Err(IllegalArgument)
  }

  datatype Destination = DRAWABLE | MIPMAP

  /** `toString()`. */
  function DestinationName(d: Destination): string {
    match d
    case DRAWABLE => "DRAWABLE"
    case MIPMAP => "MIPMAP"
  }

  /** `getFolderName()`: the lower-case resource folder prefix. */
  function FolderName(d: Destination): (r: string)
    ensures r == ToLower(DestinationName(d))
  {
    match d
    case DRAWABLE => "drawable"
    case MIPMAP => "mipmap"
  }

  /** `Destination.valueOf`. */
  function DestinationValueOf(name: Option<string>): (r: Result<Destination>)
    ensures r.Ok? <==> name.Some? && exists d :: DestinationName(d) == name.value
    ensures r.Ok? ==> DestinationName(r.value) == name.value
    ensures name.None? ==> r == Err(NullPointer)
    ensures name.Some? && r.Err? ==> r.error == IllegalArgument
  {
    match name
    case None => Err(NullPointer)
    case Some(n) =>
      if n == "DRAWABLE" then assert DestinationName(DRAWABLE) == n; Ok(DRAWABLE)
      else if n == "MIPMAP" then assert DestinationName(MIPMAP) == n; Ok(MIPMAP)
      else
        assert forall d :: DestinationName(d) != n;
        Err(IllegalArgument)
  }

  /** `valueOf(x.toString()) == x` for both enums. */
  lemma ValueOfRoundTrip(f: Format, d: Destination)
    ensures ValueOf(Some(FormatName(f))) == Ok(f)
    ensures DestinationValueOf(Some(DestinationName(d))) == Ok(d)
  {
  }
}

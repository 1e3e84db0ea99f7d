/** The densities of the earlier plugin generation (images/Resolution.java):
    six constants carrying a lower-case label; TVDPI does not exist here. */
module LegacyDensities {
  import opened Wrappers
  import opened Strings

  datatype Density = LDPI | MDPI | HDPI | XHDPI | XXHDPI | XXXHDPI

  /** `toString()`: the lower-case label. */
  function Id(d: Density): string {
    match d
    case LDPI => "ldpi"
    case MDPI => "mdpi"
    case HDPI => "hdpi"
    case XHDPI => "xhdpi"
    case XXHDPI => "xxhdpi"
    case XXXHDPI => "xxxhdpi"
  }

  /** `getName()`: the label in upper case. */
  function GetName(d: Density): (r: string)
    ensures r == ToUpper(Id(d))
  {
    match d
    case LDPI => "LDPI"
    case MDPI => "MDPI"
    case HDPI => "HDPI"
    case XHDPI => "XHDPI"
    case XXHDPI => "XXHDPI"
    case XXXHDPI => "XXXHDPI"
  }

  /** `Resolution.from`: the density whose label matches ignoring case, or
      null; a null value throws. */
  function From(value: Option<string>): (r: Result<Option<Density>>)
    ensures value.None? <==> r == Err(NullPointer)
  {
    match value
    case None => Err(NullPointer)
    case Some(v) =>
      if EqualsIgnoreCase(v, Id(LDPI)) then Ok(Some(LDPI))
      else if EqualsIgnoreCase(v, Id(MDPI)) then Ok(Some(MDPI))
      else if EqualsIgnoreCase(v, Id(HDPI)) then Ok(Some(HDPI))
      else if EqualsIgnoreCase(v, Id(XHDPI)) then Ok(Some(XHDPI))
      else if EqualsIgnoreCase(v, Id(XXHDPI)) then Ok(Some(XXHDPI))
      else if EqualsIgnoreCase(v, Id(XXXHDPI)) then Ok(Some(XXXHDPI))
      else Ok(None)
  }

  /** The density whose label is exactly `l`. */
  function WithId(l: string): (r: Option<Density>)
    ensures r.Some? ==> Id(r.value) == l
  {
    if l == Id(LDPI) then Some(LDPI)
    else if l == Id(MDPI) then Some(MDPI)
    else if l == Id(HDPI) then Some(HDPI)
    else if l == Id(XHDPI) then Some(XHDPI)
    else if l == Id(XXHDPI) then Some(XXHDPI)
    else if l == Id(XXXHDPI) then Some(XXXHDPI)
    else None
  }

  /** Parsing ignores case: it looks the lower-cased value up among the labels. */
  lemma FromLowers(v: string)
    ensures From(Some(v)) == Ok(WithId(ToLower(v)))
  {
    IdIsLower(LDPI); IdIsLower(MDPI); IdIsLower(HDPI);
    IdIsLower(XHDPI); IdIsLower(XXHDPI); IdIsLower(XXXHDPI);
  }

  /** A value parses to `d` exactly when it spells `d`'s label in any case,
      and to null exactly when it spells no label. */
  lemma FromMatchesIgnoringCase(v: string, d: Density)
    ensures From(Some(v)) == Ok(Some(d)) <==> ToLower(v) == Id(d)
    ensures From(Some(v)) == Ok(None) <==> forall q :: ToLower(v) != Id(q)
  {
    FromLowers(v);
    IdIsLower(d);
    forall q ensures WithId(Id(q)) == Some(q) {
      IdIsLower(q);
    }
  }

  /** Both the label (`toString()`) and the upper-case name (`getName()`)
      parse back to the density. */
  lemma FromRoundTrip(d: Density)
    ensures From(Some(Id(d))) == Ok(Some(d)) && From(Some(GetName(d))) == Ok(Some(d))
  {
    IdIsLower(d);
    FromMatchesIgnoringCase(Id(d), d);
    FromMatchesIgnoringCase(GetName(d), d);
  }

  lemma IdIsLower(d: Density)
    ensures ToLower(Id(d)) == Id(d) && ToLower(GetName(d)) == Id(d)
    ensures forall q :: Id(q) == Id(d) ==> q == d
  {
  }
}

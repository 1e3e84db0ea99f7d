/** The screen densities of the current plugin (model/Resolution.java). */
module Densities {
  import opened Wrappers
  import opened Strings

  datatype Resolution = LDPI | MDPI | HDPI | XHDPI | XXHDPI | XXXHDPI | TVDPI

  /** The constants in declaration order, which is also the order in which
      the model enumerates a set of resolutions. */
  const All: seq<Resolution> := [LDPI, MDPI, HDPI, XHDPI, XXHDPI, XXXHDPI, TVDPI]

  /** `toString()`: the constant's name. */
  function Name(r: Resolution): string {
    match r
    case LDPI => "LDPI"
    case MDPI => "MDPI"
    case HDPI => "HDPI"
    case XHDPI => "XHDPI"
    case XXHDPI => "XXHDPI"
    case XXXHDPI => "XXXHDPI"
    case TVDPI => "TVDPI"
  }

  /** The lower-case label used in folder names. */
  function Label(r: Resolution): string {
    match r
    case LDPI => "ldpi"
    case MDPI => "mdpi"
    case HDPI => "hdpi"
    case XHDPI => "xhdpi"
    case XXHDPI => "xxhdpi"
    case XXXHDPI => "xxxhdpi"
    case TVDPI => "tvdpi"
  }

  /** `toString().toLowerCase()` is the folder label, and labels tell
      resolutions apart. */
  lemma LabelIsLowerName(r: Resolution)
    ensures Label(r) == ToLower(Name(r))
    ensures forall q :: Label(q) == Label(r) ==> q == r
  {
  }

  /** Java's `ordinal()`: the position of the constant in `All`. */
  function Ordinal(r: Resolution): (i: nat)
    ensures i < |All| && All[i] == r
  {
    match r
    case LDPI => 0
    case MDPI => 1
    case HDPI => 2
    case XHDPI => 3
    case XXHDPI => 4
    case XXXHDPI => 5
    case TVDPI => 6
  }

  lemma AllEnumerates()
    ensures forall r :: r in All
    ensures forall i, j :: 0 <= i < j < |All| ==> All[i] != All[j]
  {
    forall r ensures r in All {
      assert All[Ordinal(r)] == r;
    }
  }

  /** The resolutions of a set in declaration order (the model's stand-in
      for a hash set's iteration order). */
  function Enumerate(rs: set<Resolution>): (r: seq<Resolution>)
    ensures forall x :: x in r <==> x in rs
    ensures forall i, j :: 0 <= i < j < |r| ==> r[i] != r[j]
  {
    AllEnumerates();
    FilterSpec(All, rs);
    Filter(All, rs)
  }

  /** One position per member of the set. */
  lemma EnumerateSize(rs: set<Resolution>)
    ensures |Enumerate(rs)| == |rs|
  {
    var xs := Enumerate(rs);
    DistinctElemsSize(xs);
    assert Elems(xs) == rs;
  }

  function Filter(xs: seq<Resolution>, rs: set<Resolution>): seq<Resolution> {
    if |xs| == 0 then [] else (if xs[0] in rs then [xs[0]] else []) + Filter(xs[1..], rs)
  }

  lemma {:induction false} FilterSpec(xs: seq<Resolution>, rs: set<Resolution>)
    requires forall i, j :: 0 <= i < j < |xs| ==> xs[i] != xs[j]
    ensures forall x :: x in Filter(xs, rs) <==> x in xs && x in rs
    ensures forall i, j :: 0 <= i < j < |Filter(xs, rs)| ==> Filter(xs, rs)[i] != Filter(xs, rs)[j]
    decreases |xs|
  {
    if |xs| > 0 {
      FilterSpec(xs[1..], rs);
      assert xs[0] !in xs[1..];
    }
  }

  /** `Resolution.from`: an empty or null value throws; otherwise the
      resolution whose name matches ignoring case, or null. */
  function From(value: Option<string>): (r: Result<Option<Resolution>>)
    ensures (value.None? || value.value == "") <==> r == Err(IllegalArgument)
  {
    match value
    case None => Err(IllegalArgument)
    case Some(v) =>
      if |v| == 0 then Err(IllegalArgument)
      else if EqualsIgnoreCase(v, Name(LDPI)) then Ok(Some(LDPI))
      else if EqualsIgnoreCase(v, Name(MDPI)) then Ok(Some(MDPI))
      else if EqualsIgnoreCase(v, Name(HDPI)) then Ok(Some(HDPI))
      else if EqualsIgnoreCase(v, Name(XHDPI)) then Ok(Some(XHDPI))
      else if EqualsIgnoreCase(v, Name(XXHDPI)) then Ok(Some(XXHDPI))
      else if EqualsIgnoreCase(v, Name(XXXHDPI)) then Ok(Some(XXXHDPI))
      else if EqualsIgnoreCase(v, Name(TVDPI)) then Ok(Some(TVDPI))
      else Ok(None)
  }

  /** The resolution whose folder label is exactly `l`. */
  function WithLabel(l: string): (r: Option<Resolution>)
    ensures r.Some? ==> Label(r.value) == l
  {
    if l == Label(LDPI) then Some(LDPI)
    else if l == Label(MDPI) then Some(MDPI)
    else if l == Label(HDPI) then Some(HDPI)
    else if l == Label(XHDPI) then Some(XHDPI)
    else if l == Label(XXHDPI) then Some(XXHDPI)
    else if l == Label(XXXHDPI) then Some(XXXHDPI)
    else if l == Label(TVDPI) then Some(TVDPI)
    else None
  }

  /** Parsing a non-empty value ignores case: it looks the lower-cased value
      up among the folder labels. */
  lemma FromLowers(v: string)
    requires v != ""
    ensures From(Some(v)) == Ok(WithLabel(ToLower(v)))
  {
    LabelIsLowerName(LDPI); LabelIsLowerName(MDPI); LabelIsLowerName(HDPI);
    LabelIsLowerName(XHDPI); LabelIsLowerName(XXHDPI); LabelIsLowerName(XXXHDPI);
    LabelIsLowerName(TVDPI);
  }

  /** A non-empty value parses to `r` exactly when it spells `r`'s name in any
      case, and to null exactly when it spells no name. */
  lemma FromMatchesIgnoringCase(v: string, r: Resolution)
    requires v != ""
    ensures From(Some(v)) == Ok(Some(r)) <==> ToLower(v) == Label(r)
    ensures From(Some(v)) == Ok(None) <==> forall q :: ToLower(v) != Label(q)
  {
    FromLowers(v);
    forall q ensures WithLabel(Label(q)) == Some(q) {
      LabelIsLowerName(q);
    }
  }

  /** Parsing a resolution's name, or its folder label, gives it back. */
  lemma FromName(r: Resolution)
    ensures From(Some(Name(r))) == Ok(Some(r))
    ensures From(Some(Label(r))) == Ok(Some(r))
  {
    LabelIsLowerName(r);
    FromMatchesIgnoringCase(Name(r), r);
    assert ToLower(Label(r)) == Label(r);
    FromMatchesIgnoringCase(Label(r), r);
  }

  /** `Resolution.Deserializer`: a JSON string goes through `from`. */
  function Deserialize(json: string): (r: Result<Option<Resolution>>)
    ensures forall q :: json == Label(q) ==> r == Ok(Some(q))
  {
    forall q | json == Label(q) ensures From(Some(json)) == Ok(Some(q)) {
      FromName(q);
    }
    From(Some(json))
  }
}

/** The current generation's settings persistence
    (controllers/settings/SettingsController.java) over the project's
    properties. Every setting has its own key; `ImageAsset` values go through
    an abstract codec standing in for Java serialisation. */
module Settings {
  import opened Wrappers
  import opened Strings
  import opened Store
  import opened Densities
  import opened Formats
  import RA = ResizeAlgorithms
  import TextUtils

  const ResRoot := "resourcesRoot"
  const LastFolderRoot := "lastFolderRoot"
  const ResolutionsKey := "resolutions"
  const SourceResolutionKey := "sourceResolution"
  const AlgorithmKey := "algorithm"
  const MethodKey := "method"
  const ColorKey := "color"
  const SizeKey := "size"
  const AssetKey := "asset"
  const FormatKey := "format"
  const DestinationKey := "destination"

  /** The keys, one per setting. */
  const Keys: seq<string> := [ResRoot, LastFolderRoot, ResolutionsKey, SourceResolutionKey, AlgorithmKey,
                              MethodKey, ColorKey, SizeKey, AssetKey, FormatKey, DestinationKey]

  /** No two settings share a key, so saving one leaves the others alone. */
  lemma KeysDistinct()
    ensures forall i, j :: 0 <= i < j < |Keys| ==> Keys[i] != Keys[j]
  {
  }

  /** `getOrDefault(key, default)`. */
  function GetOrDefault(p: Properties, key: string, default: Option<string>): (r: Option<string>)
    ensures !IsValueSet(p, key) ==> r == default
    ensures IsValueSet(p, key) ==> r == Some(p[key])
  {
    if !IsValueSet(p, key) then default else GetValue(p, key)
  }

  /** `updateOrDelete(key, value)`: the value's text, or no entry for null. */
  function UpdateOrDelete(p: Properties, key: string, value: Option<string>): (r: Properties)
    ensures GetOrDefault(r, key, None) == value
    ensures value.None? ==> !IsValueSet(r, key)
    ensures OnlyChanged(p, r, key)
  {
    SetValue(p, key, value)
  }

  /** The names of a set of resolutions, in enumeration order. */
  function Names(rs: seq<Resolution>): (r: seq<string>)
    ensures |r| == |rs|
    ensures forall i :: 0 <= i < |rs| ==> r[i] == Name(rs[i])
  {
    if rs == [] then [] else [Name(rs[0])] + Names(rs[1..])
  }

  /** `saveResolutions(set)`: the names of the set's members as a string array. */
  function SaveResolutions(p: Properties, rs: set<Resolution>): (r: Properties)
    ensures OnlyChanged(p, r, ResolutionsKey)
    ensures GetValue(r, ResolutionsKey) == Some(Join(Names(Enumerate(rs)), "\n"))
  {
    SetValues(p, ResolutionsKey, Names(Enumerate(rs)))
  }

  /** A stored entry naming a resolution. */
  predicate Parses(v: string, x: Resolution) {
    v != "" && Densities.From(Some(v)) == Ok(Some(x))
  }

  /** The entry names some resolution. */
  predicate Usable(v: string) {
    v != "" && Densities.From(Some(v)).Ok? && Densities.From(Some(v)).value.Some?
  }

  lemma UsableParses(v: string)
    ensures Usable(v) <==> exists x :: Parses(v, x)
  {
    if Usable(v) {
      assert Parses(v, Densities.From(Some(v)).value.value);
    }
  }

  /** The loop of `getResolutions`: the set of parsed entries, or None as soon
      as an entry is empty or names no resolution. */
  function ParseAll(values: seq<string>): (r: Option<set<Resolution>>)
    ensures r.Some? <==> forall i :: 0 <= i < |values| ==> Usable(values[i])
    ensures r.Some? ==> forall x :: x in r.value <==> exists i :: 0 <= i < |values| && Parses(values[i], x)
    decreases |values|
  {
    if values == [] then Some({})
    else
      var v := values[0];
      assert forall i :: 1 <= i < |values| ==> values[i] == values[1..][i - 1];
      if TextUtils.IsEmpty(Some(v)) then None
      else
        match Densities.From(Some(v))
        case Err(_) => None
        case Ok(None) => None
        case Ok(Some(x)) =>
          var rest := ParseAll(values[1..]);
          assert Parses(values[0], x);
          if rest.None? then None else Some({x} + rest.value)
  }

  /** `getResolutions(default)`: the stored set, or the default when nothing
      is stored or any entry is unusable. */
  function GetResolutions(p: Properties, default: set<Resolution>): (r: set<Resolution>)
    ensures !IsValueSet(p, ResolutionsKey) ==> r == default
    ensures GetValues(p, ResolutionsKey).Some? && ParseAll(GetValues(p, ResolutionsKey).value).Some? ==>
      r == ParseAll(GetValues(p, ResolutionsKey).value).value
    ensures GetValues(p, ResolutionsKey).Some? && ParseAll(GetValues(p, ResolutionsKey).value).None? ==>
      r == default
  {
    match GetValues(p, ResolutionsKey)
    case None => default
    case Some(values) =>
      match ParseAll(values)
      case None => default
      case Some(rs) => rs
  }

  /** The names of resolutions parse back to exactly those resolutions. */
  lemma {:induction false} NamesParse(xs: seq<Resolution>)
    ensures ParseAll(Names(xs)) == Some(set x | x in xs)
    decreases |xs|
  {
    if xs != [] {
      NamesParse(xs[1..]);
      Densities.FromName(xs[0]);
      var ns := Names(xs);
      assert ns == [Name(xs[0])] + Names(xs[1..]);
      ParseAllCons(Name(xs[0]), xs[0], Names(xs[1..]));
      ElementsCons(xs);
    } else {
      assert (set x | x in xs) == {};
    }
  }

  /** The elements of a non-empty list: its head and the elements of its tail. */
  lemma ElementsCons(xs: seq<Resolution>)
    requires xs != []
    ensures (set x | x in xs) == {xs[0]} + (set x | x in xs[1..])
  {
    assert xs == [xs[0]] + xs[1..];
  }

  /** A usable first entry adds its resolution to what the rest parses to. */
  lemma ParseAllCons(v: string, x: Resolution, rest: seq<string>)
    requires !TextUtils.IsEmpty(Some(v)) && Densities.From(Some(v)) == Ok(Some(x))
    ensures ParseAll([v] + rest) == if ParseAll(rest).None? then None else Some({x} + ParseAll(rest).value)
  {
    assert ([v] + rest)[0] == v && ([v] + rest)[1..] == rest;
  }

  /** A non-empty set is stored as its names, each non-empty and free of line
      breaks, so they read back unchanged. */
  lemma SavedNamesReadBack(p: Properties, rs: set<Resolution>)
    requires rs != {}
    ensures GetValues(SaveResolutions(p, rs), ResolutionsKey) == Some(Names(Enumerate(rs)))
  {
    var names := Names(Enumerate(rs));
    assert Enumerate(rs) != [] by {
      var x :| x in rs;
      assert x in Enumerate(rs);
    }
    forall i | 0 <= i < |names| ensures names[i] != "" && '\n' !in names[i] {
      assert names[i] == Name(Enumerate(rs)[i]);
    }
    ValuesRoundTrip(p, ResolutionsKey, names);
  }

  /** Saving a non-empty set and reading it back gives the set. */
  lemma ResolutionsRoundTrip(p: Properties, rs: set<Resolution>, default: set<Resolution>)
    requires rs != {}
    ensures GetResolutions(SaveResolutions(p, rs), default) == rs
  {
    SavedNamesReadBack(p, rs);
    NamesParse(Enumerate(rs));
    assert (set x | x in Enumerate(rs)) == rs;
  }

  /** Saving the empty set stores one empty entry, so the default comes back. */
  lemma EmptyResolutionsGiveDefault(p: Properties, default: set<Resolution>)
    ensures GetResolutions(SaveResolutions(p, {}), default) == default
  {
    assert Enumerate({}) == [];
    EmptyValuesReadBack(p, ResolutionsKey);
    assert !Parses("", LDPI);
  }

  /** `saveSourceResolution(r)`: its name, or no entry for null. */
  function SaveSourceResolution(p: Properties, r: Option<Resolution>): (q: Properties)
    ensures OnlyChanged(p, q, SourceResolutionKey)
    ensures r.None? <==> !IsValueSet(q, SourceResolutionKey)
  {
    UpdateOrDelete(p, SourceResolutionKey, if r.Some? then Some(Name(r.value)) else None)
  }

  /** `getSourceResolution(default)`: `Resolution.from` of the stored text or
      of the default's name. A stored empty text throws; any other stored
      text is looked up among the labels ignoring case, null when none
      matches. */
  function GetSourceResolution(p: Properties, default: Resolution): (r: Result<Option<Resolution>>)
    ensures !IsValueSet(p, SourceResolutionKey) ==> r == Ok(Some(default))
    ensures IsValueSet(p, SourceResolutionKey) ==> r == Densities.From(Some(p[SourceResolutionKey]))
    ensures IsValueSet(p, SourceResolutionKey) ==> (r == Err(IllegalArgument) <==> p[SourceResolutionKey] == "")
    ensures IsValueSet(p, SourceResolutionKey) && p[SourceResolutionKey] != "" ==>
      r == Ok(Densities.WithLabel(ToLower(p[SourceResolutionKey])))
  {
    Densities.FromName(default);
    if IsValueSet(p, SourceResolutionKey) && p[SourceResolutionKey] != "" then
      Densities.FromLowers(p[SourceResolutionKey]);
      Densities.From(GetOrDefault(p, SourceResolutionKey, Some(Name(default))))
    else
      Densities.From(GetOrDefault(p, SourceResolutionKey, Some(Name(default))))
  }

  lemma SourceResolutionRoundTrip(p: Properties, r: Option<Resolution>, default: Resolution)
    ensures GetSourceResolution(SaveSourceResolution(p, r), default) == Ok(Some(if r.Some? then r.value else default))
  {
    if r.Some? {
      Densities.FromName(r.value);
    }
  }

  /** `saveAlgorithm(a)`: its display name, or no entry for null. */
  function SaveAlgorithm(p: Properties, a: Option<RA.Algorithm>): (q: Properties)
    ensures OnlyChanged(p, q, AlgorithmKey)
    ensures a.None? <==> !IsValueSet(q, AlgorithmKey)
  {
    UpdateOrDelete(p, AlgorithmKey, if a.Some? then Some(RA.AlgorithmName(a.value)) else None)
  }

  /** `getAlgorithm(default)`: `ResizeAlgorithm.from`, which throws for an
      unknown stored name. */
  function GetAlgorithm(p: Properties, default: RA.Algorithm): (r: Result<RA.Algorithm>)
    ensures !IsValueSet(p, AlgorithmKey) ==> r == Ok(default)
    ensures IsValueSet(p, AlgorithmKey) ==> r == RA.From(Some(p[AlgorithmKey]))
    ensures IsValueSet(p, AlgorithmKey) && (forall a :: RA.AlgorithmName(a) != p[AlgorithmKey]) ==> r == Err(IllegalArgument)
    ensures r.Err? ==> r.error == IllegalArgument
  {
    RA.FromRoundTrip(default);
    RA.From(GetOrDefault(p, AlgorithmKey, Some(RA.AlgorithmName(default))))
  }

  lemma AlgorithmRoundTrip(p: Properties, a: Option<RA.Algorithm>, default: RA.Algorithm)
    ensures GetAlgorithm(SaveAlgorithm(p, a), default) == Ok(if a.Some? then a.value else default)
  {
    if a.Some? {
      RA.FromRoundTrip(a.value);
    }
  }

  /** `saveMethod`, `saveColor`, `saveSize` store the text as it is. */
  function SaveMethod(p: Properties, m: Option<string>): (q: Properties)
    ensures OnlyChanged(p, q, MethodKey)
    ensures GetOrDefault(q, MethodKey, None) == m
  {
    UpdateOrDelete(p, MethodKey, m)
  }

  function GetMethod(p: Properties, default: Option<string>): (r: Option<string>)
    ensures !IsValueSet(p, MethodKey) ==> r == default
    ensures IsValueSet(p, MethodKey) ==> r == Some(p[MethodKey])
  {
    GetOrDefault(p, MethodKey, default)
  }

  function SaveColor(p: Properties, c: Option<string>): (q: Properties)
    ensures OnlyChanged(p, q, ColorKey)
    ensures GetOrDefault(q, ColorKey, None) == c
  {
    UpdateOrDelete(p, ColorKey, c)
  }

  /** `getColor()`: the default is null. */
  function GetColor(p: Properties): (r: Option<string>)
    ensures r.Some? <==> IsValueSet(p, ColorKey)
    ensures IsValueSet(p, ColorKey) ==> r == Some(p[ColorKey])
  {
    GetOrDefault(p, ColorKey, None)
  }

  function SaveSize(p: Properties, s: Option<string>): (q: Properties)
    ensures OnlyChanged(p, q, SizeKey)
    ensures GetOrDefault(q, SizeKey, None) == s
  {
    UpdateOrDelete(p, SizeKey, s)
  }

  /** `getSize()`: the default is null. */
  function GetSize(p: Properties): (r: Option<string>)
    ensures r.Some? <==> IsValueSet(p, SizeKey)
    ensures IsValueSet(p, SizeKey) ==> r == Some(p[SizeKey])
  {
    GetOrDefault(p, SizeKey, None)
  }

  /** Saving a text and reading it back gives it; saving null gives the
      default back. */
  lemma TextSettingsRoundTrip(p: Properties, v: Option<string>, default: Option<string>)
    ensures GetMethod(SaveMethod(p, v), default) == (if v.Some? then v else default)
    ensures GetColor(SaveColor(p, v)) == v
    ensures GetSize(SaveSize(p, v)) == v
  {
  }

  /** `saveImageAsset(asset)`: null, or an asset the encoder cannot write,
      removes the entry; otherwise the encoded text is stored. */
  function SaveImageAsset<A>(p: Properties, asset: Option<A>, encode: A -> Option<string>): (q: Properties)
    ensures OnlyChanged(p, q, AssetKey)
    ensures IsValueSet(q, AssetKey) <==> asset.Some? && encode(asset.value).Some?
  {
    if asset.None? then Unset(p, AssetKey)
    else
      match encode(asset.value)
      case None => Unset(p, AssetKey)
      case Some(text) => SetValue(p, AssetKey, Some(text))
  }

  /** `getImageAsset()`: null when nothing is stored or decoding fails. */
  function GetImageAsset<A>(p: Properties, decode: string -> Option<A>): (r: Option<A>)
    ensures !IsValueSet(p, AssetKey) ==> r.None?
    ensures IsValueSet(p, AssetKey) ==> r == decode(p[AssetKey])
  {
    match GetOrDefault(p, AssetKey, None)
    case None => None
    case Some(text) => decode(text)
  }

  /** With a codec whose decoder inverts its encoder, an asset round-trips. */
  lemma ImageAssetRoundTrip<A>(p: Properties, a: A, encode: A -> Option<string>, decode: string -> Option<A>)
    requires encode(a).Some? && decode(encode(a).value) == Some(a)
    ensures GetImageAsset(SaveImageAsset(p, Some(a), encode), decode) == Some(a)
  {
  }

  /** `saveFormat(f)`: its name, or no entry for null. */
  function SaveFormat(p: Properties, f: Option<Format>): (q: Properties)
    ensures OnlyChanged(p, q, FormatKey)
    ensures f.None? <==> !IsValueSet(q, FormatKey)
  {
    UpdateOrDelete(p, FormatKey, if f.Some? then Some(FormatName(f.value)) else None)
  }

  /** `getFormat(default)`: `Format.valueOf`, which throws for an unknown name. */
  function GetFormat(p: Properties, default: Format): (r: Result<Format>)
    ensures !IsValueSet(p, FormatKey) ==> r == Ok(default)
    ensures IsValueSet(p, FormatKey) ==> r == ValueOf(Some(p[FormatKey]))
    ensures IsValueSet(p, FormatKey) && (forall f :: FormatName(f) != p[FormatKey]) ==> r == Err(IllegalArgument)
    ensures r.Err? ==> r.error == IllegalArgument
  {
    ValueOfRoundTrip(default, DRAWABLE);
    ValueOf(GetOrDefault(p, FormatKey, Some(FormatName(default))))
  }

  /** `saveDestination(d)`: its name, or no entry for null. */
  function SaveDestination(p: Properties, d: Option<Destination>): (q: Properties)
    ensures OnlyChanged(p, q, DestinationKey)
    ensures d.None? <==> !IsValueSet(q, DestinationKey)
  {
    UpdateOrDelete(p, DestinationKey, if d.Some? then Some(DestinationName(d.value)) else None)
  }

  /** `getDestination(default)`: `Destination.valueOf`. */
  function GetDestination(p: Properties, default: Destination): (r: Result<Destination>)
    ensures !IsValueSet(p, DestinationKey) ==> r == Ok(default)
    ensures IsValueSet(p, DestinationKey) ==> r == DestinationValueOf(Some(p[DestinationKey]))
    ensures IsValueSet(p, DestinationKey) && (forall d :: DestinationName(d) != p[DestinationKey]) ==> r == Err(IllegalArgument)
    ensures r.Err? ==> r.error == IllegalArgument
  {
    ValueOfRoundTrip(PNG, default);
    DestinationValueOf(GetOrDefault(p, DestinationKey, Some(DestinationName(default))))
  }

  lemma FormatDestinationRoundTrip(p: Properties, f: Option<Format>, d: Option<Destination>,
                                   df: Format, dd: Destination)
    ensures GetFormat(SaveFormat(p, f), df) == Ok(if f.Some? then f.value else df)
    ensures GetDestination(SaveDestination(p, d), dd) == Ok(if d.Some? then d.value else dd)
  {
    if f.Some? {
      ValueOfRoundTrip(f.value, dd);
    }
    if d.Some? {
      ValueOfRoundTrip(df, d.value);
    }
  }

  /** Saving one setting does not change what another one reads. */
  lemma SaveLeavesOthers(p: Properties, a: Option<RA.Algorithm>, default: Resolution, defaults: set<Resolution>)
    ensures GetSourceResolution(SaveAlgorithm(p, a), default) == GetSourceResolution(p, default)
    ensures GetResolutions(SaveAlgorithm(p, a), defaults) == GetResolutions(p, defaults)
    ensures GetColor(SaveSize(p, None)) == GetColor(p)
  {
    var q := SaveAlgorithm(p, a);
    assert GetValue(q, SourceResolutionKey) == GetValue(p, SourceResolutionKey);
    assert GetValue(q, ResolutionsKey) == GetValue(p, ResolutionsKey);
    assert GetValue(SaveSize(p, None), ColorKey) == GetValue(p, ColorKey);
  }

  /** `saveResRootForProject` / `getResourceRootPath` and
      `saveLastImageFolder` / `getLastImageFolder`: plain values under their
      own keys. */
  function SaveResRoot(p: Properties, url: Option<string>): (q: Properties)
    ensures GetValue(q, ResRoot) == url && OnlyChanged(p, q, ResRoot)
  {
    SetValue(p, ResRoot, url)
  }

  function SaveLastImageFolder(p: Properties, url: Option<string>): (q: Properties)
    ensures GetValue(q, LastFolderRoot) == url && OnlyChanged(p, q, LastFolderRoot)
  {
    SetValue(p, LastFolderRoot, url)
  }
}

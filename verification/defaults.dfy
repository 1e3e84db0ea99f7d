/** The current generation's default settings
    (controllers/defaults/DefaultsController.java): constants, a state that
    each setter updates and persists, `restore` from the store and
    `tearDown`. The state is modelled as a record of nullable fields. */
module Defaults {
  import opened Wrappers
  import opened Store
  import D = Densities
  import F = Formats
  import RA = ResizeAlgorithms
  import S = Settings

  /** `DEFAULT_RESOLUTIONS`. */
  const Resolutions: set<D.Resolution> := {D.MDPI, D.HDPI, D.XHDPI, D.XXHDPI, D.XXXHDPI}
  /** `DEFAULT_SOURCE_RESOLUTION`. */
  const SourceResolution: D.Resolution := D.XHDPI
  /** `DEFAULT_ALGORITHM`. */
  const Algorithm: RA.Algorithm := RA.SCALR
  /** `DEFAULT_METHOD`: the algorithm's first method name. */
  const Method: string := RA.GetMethods(RA.SCALR)[0]
  /** `DEFAULT_FORMAT`. */
  const Format: F.Format := F.PNG
  /** `DEFAULT_DESTINATION`. */
  const Destination: F.Destination := F.DRAWABLE

  /** The default resolutions are every density but LDPI and TVDPI, and the
      default method is "Automatic". */
  lemma DefaultConstants()
    ensures forall r :: r in Resolutions <==> r != D.LDPI && r != D.TVDPI
    ensures Method == "Automatic" && RA.GetMethod(Algorithm, Some(Method)) == Ok(Some(RA.Automatic))
  {
  }

  datatype State<A> = State(
    resolutions: Option<set<D.Resolution>>,
    sourceResolution: Option<D.Resolution>,
    imageAsset: Option<A>,
    algorithm: Option<RA.Algorithm>,
    resizeMethod: Option<string>,
    format: Option<F.Format>,
    destination: Option<F.Destination>,
    size: Option<string>,
    color: Option<string>,
    store: Properties,
    tornDown: bool)

  /** The setters: each stores the value and saves it, and leaves every
      other field alone. After `tearDown` the settings controller is null and
      the save throws. */
  function SetResolutions<A>(s: State<A>, rs: set<D.Resolution>): (r: Result<State<A>>)
    ensures r.Err? <==> s.tornDown
    ensures r.Err? ==> r.error == NullPointer
    ensures r.Ok? ==> r.value.resolutions == Some(rs) && r.value.store == S.SaveResolutions(s.store, rs)
    ensures r.Ok? ==> r.value.(resolutions := s.resolutions, store := s.store) == s
  {
    if s.tornDown then Err(NullPointer)
    else Ok(s.(resolutions := Some(rs), store := S.SaveResolutions(s.store, rs)))
  }

  function SetSourceResolution<A>(s: State<A>, v: Option<D.Resolution>): (r: Result<State<A>>)
    ensures r.Err? <==> s.tornDown
    ensures r.Err? ==> r.error == NullPointer
    ensures r.Ok? ==> r.value.sourceResolution == v && r.value.store == S.SaveSourceResolution(s.store, v)
    ensures r.Ok? ==> r.value.(sourceResolution := s.sourceResolution, store := s.store) == s
  {
    if s.tornDown then Err(NullPointer)
    else Ok(s.(sourceResolution := v, store := S.SaveSourceResolution(s.store, v)))
  }

  function SetImageAsset<A>(s: State<A>, v: Option<A>, encode: A -> Option<string>): (r: Result<State<A>>)
    ensures r.Err? <==> s.tornDown
    ensures r.Err? ==> r.error == NullPointer
    ensures r.Ok? ==> r.value.imageAsset == v && r.value.store == S.SaveImageAsset(s.store, v, encode)
    ensures r.Ok? ==> r.value.(imageAsset := s.imageAsset, store := s.store) == s
  {
    if s.tornDown then Err(NullPointer)
    else Ok(s.(imageAsset := v, store := S.SaveImageAsset(s.store, v, encode)))
  }

  function SetAlgorithm<A>(s: State<A>, v: Option<RA.Algorithm>): (r: Result<State<A>>)
    ensures r.Err? <==> s.tornDown
    ensures r.Err? ==> r.error == NullPointer
    ensures r.Ok? ==> r.value.algorithm == v && r.value.store == S.SaveAlgorithm(s.store, v)
    ensures r.Ok? ==> r.value.(algorithm := s.algorithm, store := s.store) == s
  {
    if s.tornDown then Err(NullPointer)
    else Ok(s.(algorithm := v, store := S.SaveAlgorithm(s.store, v)))
  }

  function SetMethod<A>(s: State<A>, v: Option<string>): (r: Result<State<A>>)
    ensures r.Err? <==> s.tornDown
    ensures r.Err? ==> r.error == NullPointer
    ensures r.Ok? ==> r.value.resizeMethod == v && r.value.store == S.SaveMethod(s.store, v)
    ensures r.Ok? ==> r.value.(resizeMethod := s.resizeMethod, store := s.store) == s
  {
    if s.tornDown then Err(NullPointer)
    else Ok(s.(resizeMethod := v, store := S.SaveMethod(s.store, v)))
  }

  function SetFormat<A>(s: State<A>, v: Option<F.Format>): (r: Result<State<A>>)
    ensures r.Err? <==> s.tornDown
    ensures r.Err? ==> r.error == NullPointer
    ensures r.Ok? ==> r.value.format == v && r.value.store == S.SaveFormat(s.store, v)
    ensures r.Ok? ==> r.value.(format := s.format, store := s.store) == s
  {
    if s.tornDown then Err(NullPointer)
    else Ok(s.(format := v, store := S.SaveFormat(s.store, v)))
  }

  function SetDestination<A>(s: State<A>, v: Option<F.Destination>): (r: Result<State<A>>)
    ensures r.Err? <==> s.tornDown
    ensures r.Err? ==> r.error == NullPointer
    ensures r.Ok? ==> r.value.destination == v && r.value.store == S.SaveDestination(s.store, v)
    ensures r.Ok? ==> r.value.(destination := s.destination, store := s.store) == s
  {
    if s.tornDown then Err(NullPointer)
    else Ok(s.(destination := v, store := S.SaveDestination(s.store, v)))
  }

  function SetSize<A>(s: State<A>, v: Option<string>): (r: Result<State<A>>)
    ensures r.Err? <==> s.tornDown
    ensures r.Err? ==> r.error == NullPointer
    ensures r.Ok? ==> r.value.size == v && r.value.store == S.SaveSize(s.store, v)
    ensures r.Ok? ==> r.value.(size := s.size, store := s.store) == s
  {
    if s.tornDown then Err(NullPointer)
    else Ok(s.(size := v, store := S.SaveSize(s.store, v)))
  }

  function SetColor<A>(s: State<A>, v: Option<string>): (r: Result<State<A>>)
    ensures r.Err? <==> s.tornDown
    ensures r.Err? ==> r.error == NullPointer
    ensures r.Ok? ==> r.value.color == v && r.value.store == S.SaveColor(s.store, v)
    ensures r.Ok? ==> r.value.(color := s.color, store := s.store) == s
  {
    if s.tornDown then Err(NullPointer)
    else Ok(s.(color := v, store := S.SaveColor(s.store, v)))
  }

  /** `restore()`: every field read back from the store with the constants
      as defaults; an unreadable source resolution, algorithm, format or
      destination throws, and the first one read in that order decides the
      error. After `tearDown` the first read already throws. */
  function Restore<A>(s: State<A>, decode: string -> Option<A>): (r: Result<State<A>>)
    ensures s.tornDown ==> r == Err(NullPointer)
    ensures r.Ok? ==> r.value.store == s.store && !r.value.tornDown
    ensures r.Ok? ==> r.value.resolutions == Some(S.GetResolutions(s.store, Resolutions))
    ensures r.Ok? ==> r.value.resizeMethod == S.GetMethod(s.store, Some(Method))
    ensures r.Ok? ==> r.value.color == S.GetColor(s.store) && r.value.size == S.GetSize(s.store)
    ensures r.Ok? <==> !s.tornDown && S.GetSourceResolution(s.store, SourceResolution).Ok? && S.GetAlgorithm(s.store, Algorithm).Ok?
                       && S.GetFormat(s.store, Format).Ok? && S.GetDestination(s.store, Destination).Ok?
    ensures r.Ok? ==> r.value.imageAsset == S.GetImageAsset(s.store, decode)
    ensures r.Ok? ==> r.value.sourceResolution == S.GetSourceResolution(s.store, SourceResolution).value
    ensures r.Ok? ==> r.value.algorithm == Some(S.GetAlgorithm(s.store, Algorithm).value)
    ensures r.Ok? ==> r.value.format == Some(S.GetFormat(s.store, Format).value)
    ensures r.Ok? ==> r.value.destination == Some(S.GetDestination(s.store, Destination).value)
    ensures r.Err? ==> r.error == (if s.tornDown then NullPointer
                                   else if S.GetSourceResolution(s.store, SourceResolution).Err? then S.GetSourceResolution(s.store, SourceResolution).error
                                   else if S.GetAlgorithm(s.store, Algorithm).Err? then S.GetAlgorithm(s.store, Algorithm).error
                                   else if S.GetFormat(s.store, Format).Err? then S.GetFormat(s.store, Format).error
                                   else S.GetDestination(s.store, Destination).error)
  {
    if s.tornDown then Err(NullPointer) else
    var source :- S.GetSourceResolution(s.store, SourceResolution);
    var algorithm :- S.GetAlgorithm(s.store, Algorithm);
    var format :- S.GetFormat(s.store, Format);
    var destination :- S.GetDestination(s.store, Destination);
    Ok(State(Some(S.GetResolutions(s.store, Resolutions)), source, S.GetImageAsset(s.store, decode),
             Some(algorithm), S.GetMethod(s.store, Some(Method)), Some(format), Some(destination),
             S.GetSize(s.store), S.GetColor(s.store), s.store, false))
  }

  /** Restoring from an empty store yields the constants, with no asset,
      colour or size. */
  lemma RestoreEmpty<A>(s: State<A>, decode: string -> Option<A>)
    requires s.store == map[] && !s.tornDown
    ensures Restore(s, decode) == Ok(State(Some(Resolutions), Some(SourceResolution), None, Some(Algorithm),
                                           Some(Method), Some(Format), Some(Destination), None, None, map[], false))
  {
  }

  /** A value set through a setter is what the next `restore` reads, as long
      as the rest of the store restores. */
  lemma SetThenRestore<A>(s: State<A>, rs: set<D.Resolution>, src: D.Resolution, m: string, decode: string -> Option<A>)
    requires rs != {}
    requires Restore(s, decode).Ok?
    ensures SetResolutions(s, rs).Ok? && Restore(SetResolutions(s, rs).value, decode).Ok?
    ensures Restore(SetResolutions(s, rs).value, decode).value.resolutions == Some(rs)
    ensures SetSourceResolution(s, Some(src)).Ok? && Restore(SetSourceResolution(s, Some(src)).value, decode).Ok?
    ensures Restore(SetSourceResolution(s, Some(src)).value, decode).value.sourceResolution == Some(src)
    ensures SetMethod(s, Some(m)).Ok? && Restore(SetMethod(s, Some(m)).value, decode).Ok?
    ensures Restore(SetMethod(s, Some(m)).value, decode).value.resizeMethod == Some(m)
  {
    ResolutionsThenRestore(s, rs, decode);
    SourceThenRestore(s, src, decode);
    MethodThenRestore(s, m, decode);
  }

  lemma ResolutionsThenRestore<A>(s: State<A>, rs: set<D.Resolution>, decode: string -> Option<A>)
    requires rs != {} && Restore(s, decode).Ok?
    ensures SetResolutions(s, rs).Ok? && Restore(SetResolutions(s, rs).value, decode).Ok?
    ensures Restore(SetResolutions(s, rs).value, decode).value.resolutions == Some(rs)
  {
    var t := SetResolutions(s, rs).value;
    S.ResolutionsRoundTrip(s.store, rs, Resolutions);
    assert GetValue(t.store, S.SourceResolutionKey) == GetValue(s.store, S.SourceResolutionKey);
    assert S.GetSourceResolution(t.store, SourceResolution) == S.GetSourceResolution(s.store, SourceResolution);
    RestoreStillReads(s, t, decode);
    assert Restore(t, decode).value.resolutions == Some(S.GetResolutions(t.store, Resolutions));
  }

  lemma SourceThenRestore<A>(s: State<A>, src: D.Resolution, decode: string -> Option<A>)
    requires Restore(s, decode).Ok?
    ensures SetSourceResolution(s, Some(src)).Ok? && Restore(SetSourceResolution(s, Some(src)).value, decode).Ok?
    ensures Restore(SetSourceResolution(s, Some(src)).value, decode).value.sourceResolution == Some(src)
  {
    S.SourceResolutionRoundTrip(s.store, Some(src), SourceResolution);
    RestoreStillReads(s, SetSourceResolution(s, Some(src)).value, decode);
  }

  lemma MethodThenRestore<A>(s: State<A>, m: string, decode: string -> Option<A>)
    requires Restore(s, decode).Ok?
    ensures SetMethod(s, Some(m)).Ok? && Restore(SetMethod(s, Some(m)).value, decode).Ok?
    ensures Restore(SetMethod(s, Some(m)).value, decode).value.resizeMethod == Some(m)
  {
    RestoreStillReads(s, SetMethod(s, Some(m)).value, decode);
  }

  /** A store that agrees on the four keys that can throw restores as
      long as the original one does. */
  lemma RestoreStillReads<A>(s: State<A>, t: State<A>, decode: string -> Option<A>)
    requires Restore(s, decode).Ok? && !t.tornDown
    requires S.GetSourceResolution(t.store, SourceResolution).Ok?
    requires GetValue(t.store, S.AlgorithmKey) == GetValue(s.store, S.AlgorithmKey)
    requires GetValue(t.store, S.FormatKey) == GetValue(s.store, S.FormatKey)
    requires GetValue(t.store, S.DestinationKey) == GetValue(s.store, S.DestinationKey)
    ensures Restore(t, decode).Ok?
  {
    assert S.GetAlgorithm(t.store, Algorithm) == S.GetAlgorithm(s.store, Algorithm);
    assert S.GetFormat(t.store, Format) == S.GetFormat(s.store, Format);
    assert S.GetDestination(t.store, Destination) == S.GetDestination(s.store, Destination);
  }

  /** `tearDown()`: every field becomes null, the settings controller too.
      The IDE's store itself is not the controller's and keeps its values. */
  function TearDown<A>(s: State<A>): (r: State<A>)
    ensures r.resolutions.None? && r.sourceResolution.None? && r.imageAsset.None?
    ensures r.algorithm.None? && r.resizeMethod.None? && r.format.None? && r.destination.None?
    ensures r.size.None? && r.color.None?
    ensures r.tornDown && r.store == s.store
  {
    State(None, None, None, None, None, None, None, None, None, s.store, true)
  }

  /** Once torn down, the controller cannot be used again: every setter and
      `restore` throws a null-pointer error, whatever the earlier state. */
  lemma TornDownThrows<A>(s: State<A>, decode: string -> Option<A>, encode: A -> Option<string>,
                          rs: set<D.Resolution>, src: Option<D.Resolution>, asset: Option<A>,
                          alg: Option<RA.Algorithm>, m: Option<string>, f: Option<F.Format>,
                          dest: Option<F.Destination>, size: Option<string>, color: Option<string>)
    ensures var t := TearDown(s);
      && SetResolutions(t, rs) == Err(NullPointer) && SetSourceResolution(t, src) == Err(NullPointer)
      && SetImageAsset(t, asset, encode) == Err(NullPointer) && SetAlgorithm(t, alg) == Err(NullPointer)
      && SetMethod(t, m) == Err(NullPointer) && SetFormat(t, f) == Err(NullPointer)
      && SetDestination(t, dest) == Err(NullPointer) && SetSize(t, size) == Err(NullPointer)
      && SetColor(t, color) == Err(NullPointer) && Restore(t, decode) == Err(NullPointer)
  {
  }
}

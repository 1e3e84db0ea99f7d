/** The dialog controller that adds one source image to a batch, or edits the
    entries of one already added
    (controllers/batchscale/additem/AddItemBatchScaleImporterController.java).
    The controller's state is a value; every setter returns the new state and
    whether the observers were notified. The image's pixel size and the
    aspect-ratio maths are not modelled: the ratio between the chosen and the
    original width is kept as one exact real, `sizeRatio`. */
module AddItem {
  import opened Wrappers
  import opened Strings
  import opened Densities
  import opened Formats
  import RA = ResizeAlgorithms
  import Paths
  import ExportNames
  import ScaleFactors
  import Info = ImageInfo

  datatype State = State(
    targets: set<Resolution>,
    sourceResolution: Resolution,
    exportName: Option<string>,
    imageFile: Option<string>,
    exportRoot: Option<string>,
    algorithm: RA.Algorithm,
    methodName: Option<string>,
    ninePatch: bool,
    format: Format,
    destination: Destination,
    sizeRatio: real)

  /** What the defaults controller hands to a new item. */
  datatype Preset = Preset(
    resolutions: set<Resolution>,
    source: Resolution,
    algorithm: RA.Algorithm,
    methodName: Option<string>,
    format: Format,
    destination: Destination)

  /** The result of a setter: the new state and whether observers were told. */
  datatype Changed = Changed(state: State, notified: bool)

  /** The first constructor: a new file with the defaults' settings. The
      export name is the sanitised file name; a file ending in ".9.png" is a
      nine-patch and is exported as PNG whatever the default format.
      `readable` says whether `ImageIO.read` returned without throwing; if it
      threw, the file is not kept. A `null` image from a file no reader
      understands still keeps the file: it is assigned before the null
      image's `getWidth()` throws. */
  function FromFile(d: Preset, exportRoot: Option<string>, file: string, readable: bool): (s: State)
    ensures s.ninePatch <==> EndsWith(Paths.FileName(file), ".9.png")
    ensures s.ninePatch ==> s.format == PNG
    ensures !s.ninePatch ==> s.format == d.format
    ensures s.exportName.Some?
    ensures forall i :: 0 <= i < |s.exportName.value| ==> ExportNames.Kept(s.exportName.value[i])
    ensures s.imageFile.Some? <==> readable
    ensures s.imageFile.Some? ==> s.imageFile.value == file
    ensures s.targets == d.resolutions && s.sourceResolution == d.source
    ensures s.algorithm == d.algorithm && s.methodName == d.methodName
    ensures s.exportRoot == exportRoot && s.destination == d.destination
  {
    var fileName := Paths.FileName(file);
    var ninePatch := EndsWith(fileName, ".9.png");
    State(d.resolutions, d.source, Some(ExportNames.GetExportNameFromFilename(fileName)),
          if readable then Some(file) else None, exportRoot, d.algorithm, d.methodName,
          ninePatch, if ninePatch then PNG else d.format, d.destination, 1.0)
  }

  /** The target resolutions of a list of entries. */
  function TargetsOf(infos: seq<Info.ImageInformation>): (ts: set<Resolution>)
    ensures forall t :: t in ts <==> exists i :: 0 <= i < |infos| && infos[i].targetResolution == t
  {
    set i | 0 <= i < |infos| :: infos[i].targetResolution
  }

  /** The second constructor: edit the entries of one source file. The target
      set is the set of the entries' targets; every other setting comes from
      the first entry, whose method is shown by the algorithm's `pretty`
      name. The size ratio undoes the first entry's density scaling. An empty
      list fails on `get(0)`. */
  function FromEntries(source: Resolution, infos: seq<Info.ImageInformation>,
                       pretty: Option<RA.Method> -> Option<string>, readable: bool): (r: Result<State>)
    ensures r.Err? <==> infos == []
    ensures r.Err? ==> r.error == IndexOutOfBounds
    ensures r.Ok? ==> r.value.targets == TargetsOf(infos)
    ensures r.Ok? ==> infos[0].targetResolution in r.value.targets
    ensures r.Ok? ==>
      var s, b := r.value, infos[0];
      && s.sourceResolution == source
      && s.exportName == b.exportName && s.exportRoot == b.exportPath
      && s.algorithm == b.algorithm && s.methodName == pretty(b.resizeMethod)
      && s.ninePatch == b.ninePatch && s.format == b.format && s.destination == b.destination
      && (s.imageFile.Some? ==> readable && s.imageFile == b.imageFile)
      && s.sizeRatio * ScaleFactors.ScaleFactor(b.targetResolution, source) == b.factor
  {
    if infos == [] then Err(IndexOutOfBounds)
    else
      var b := infos[0];
      Ok(State(TargetsOf(infos), source, b.exportName, if readable then b.imageFile else None,
               b.exportPath, b.algorithm, pretty(b.resizeMethod), b.ninePatch, b.format,
               b.destination, b.factor / ScaleFactors.ScaleFactor(b.targetResolution, source)))
  }

  // ---- Setters ---------------------------------------------------------------

  /** `setSourceResolution`: always notifies. */
  function SetSourceResolution(s: State, res: Resolution): (c: Changed)
    ensures c.notified && c.state.sourceResolution == res
    ensures c.state.(sourceResolution := s.sourceResolution) == s
  {
    Changed(s.(sourceResolution := res), true)
  }

  /** `addTargetResolution`: adds the resolution, notifying only when it was
      not yet a target. */
  function AddTargetResolution(s: State, res: Resolution): (c: Changed)
    ensures c.state.targets == s.targets + {res}
    ensures c.notified <==> res !in s.targets
    ensures c.state.(targets := s.targets) == s
  {
    if res in s.targets then Changed(s, false)
    else Changed(s.(targets := s.targets + {res}), true)
  }

  /** `removeTargetResolution`: removes the resolution, notifying only when
      it was a target. */
  function RemoveTargetResolution(s: State, res: Resolution): (c: Changed)
    ensures c.state.targets == s.targets - {res}
    ensures c.notified <==> res in s.targets
    ensures c.state.(targets := s.targets) == s
  {
    if res !in s.targets then Changed(s, false)
    else Changed(s.(targets := s.targets - {res}), true)
  }

  /** Adding or removing a resolution twice is the same as once, and the
      second call notifies nobody; removing what was just added restores the
      state. */
  lemma TargetOpsIdempotent(s: State, res: Resolution)
    ensures AddTargetResolution(AddTargetResolution(s, res).state, res)
         == Changed(AddTargetResolution(s, res).state, false)
    ensures RemoveTargetResolution(RemoveTargetResolution(s, res).state, res)
         == Changed(RemoveTargetResolution(s, res).state, false)
    ensures res !in s.targets ==> RemoveTargetResolution(AddTargetResolution(s, res).state, res).state == s
  {
    if res !in s.targets {
      assert s.targets + {res} - {res} == s.targets;
    }
  }

  /** `setTargetRoot`: the current root's `equals` is called, so a null root
      throws; an equal path changes nothing. */
  function SetTargetRoot(s: State, path: Option<string>): (r: Result<Changed>)
    ensures r.Err? <==> s.exportRoot.None?
    ensures r.Err? ==> r.error == NullPointer
    ensures r.Ok? ==> r.value.state == s.(exportRoot := path)
    ensures r.Ok? ==> (r.value.notified <==> path != s.exportRoot)
  {
    if s.exportRoot.None? then Err(NullPointer)
    else if path == s.exportRoot then Ok(Changed(s, false))
    else Ok(Changed(s.(exportRoot := path), true))
  }

  /** `setExportName`: as `setTargetRoot`, for the export name. */
  function SetExportName(s: State, name: Option<string>): (r: Result<Changed>)
    ensures r.Err? <==> s.exportName.None?
    ensures r.Err? ==> r.error == NullPointer
    ensures r.Ok? ==> r.value.state == s.(exportName := name)
    ensures r.Ok? ==> (r.value.notified <==> name != s.exportName)
  {
    if s.exportName.None? then Err(NullPointer)
    else if name == s.exportName then Ok(Changed(s, false))
    else Ok(Changed(s.(exportName := name), true))
  }

  /** `setAlgorithm`: the same algorithm changes nothing; another one
      replaces the method by its first method, which it accepts. */
  function SetAlgorithm(s: State, a: RA.Algorithm): (c: Changed)
    ensures c.notified <==> a != s.algorithm
    ensures !c.notified ==> c.state == s
    ensures c.state.algorithm == a
    ensures c.notified ==> c.state == s.(algorithm := a, methodName := Some(RA.GetMethods(a)[0]))
    ensures c.notified ==> RA.GetMethod(a, c.state.methodName).Ok?
  {
    if a == s.algorithm then Changed(s, false)
    else
      var m := RA.GetMethods(a)[0];
      assert m in RA.GetMethods(a);
      Changed(s.(algorithm := a, methodName := Some(m)), true)
  }

  /** `setMethod`: null-safe comparison with the current method. */
  function SetMethod(s: State, m: Option<string>): (c: Changed)
    ensures c.state == s.(methodName := m)
    ensures c.notified <==> m != s.methodName
  {
    if m == s.methodName then Changed(s, false) else Changed(s.(methodName := m), true)
  }

  /** `setFormat`. */
  function SetFormat(s: State, f: Format): (c: Changed)
    ensures c.state == s.(format := f)
    ensures c.notified <==> f != s.format
  {
    if f == s.format then Changed(s, false) else Changed(s.(format := f), true)
  }

  /** `setDestination`. */
  function SetDestination(s: State, d: Destination): (c: Changed)
    ensures c.state == s.(destination := d)
    ensures c.notified <==> d != s.destination
  {
    if d == s.destination then Changed(s, false) else Changed(s.(destination := d), true)
  }

  /** Setting any of root, name, algorithm, method, format or destination to
      its current value leaves the state as it is and notifies nobody. */
  lemma UnchangedValuesDoNotNotify(s: State)
    ensures s.exportRoot.Some? ==> SetTargetRoot(s, s.exportRoot) == Ok(Changed(s, false))
    ensures s.exportName.Some? ==> SetExportName(s, s.exportName) == Ok(Changed(s, false))
    ensures SetAlgorithm(s, s.algorithm) == Changed(s, false)
    ensures SetMethod(s, s.methodName) == Changed(s, false)
    ensures SetFormat(s, s.format) == Changed(s, false)
    ensures SetDestination(s, s.destination) == Changed(s, false)
  {
  }

  // ---- Export entries ----------------------------------------------------------

  /** `getRealScaleFactor(target)`: the density factor from the source
      resolution times the size ratio. */
  function RealScaleFactor(s: State, target: Resolution): (f: real)
    ensures f == ScaleFactors.DensityOf(target) / ScaleFactors.DensityOf(s.sourceResolution) * s.sizeRatio
    ensures s.sizeRatio > 0.0 ==> f > 0.0
  {
    ScaleFactors.ScaleFactor(target, s.sourceResolution) * s.sizeRatio
  }

  /** One copy of `base` per target resolution, in the set's iteration order
      (modelled as declaration order), each with its resolution and factor. */
  function FanOut(s: State, base: Info.ImageInformation): (r: seq<Info.ImageInformation>)
    ensures forall t :: t in s.targets <==> exists i :: 0 <= i < |r| && r[i].targetResolution == t
    ensures forall i, j :: 0 <= i < j < |r| ==> r[i].targetResolution != r[j].targetResolution
    ensures forall i :: 0 <= i < |r| ==>
      r[i] == base.(targetResolution := r[i].targetResolution,
                    factor := RealScaleFactor(s, r[i].targetResolution))
  {
    var ts := Enumerate(s.targets);
    var r := seq(|ts|, i requires 0 <= i < |ts| =>
      base.(targetResolution := ts[i], factor := RealScaleFactor(s, ts[i])));
    assert forall i :: 0 <= i < |r| ==> r[i].targetResolution == ts[i];
    r
  }

  /** The first `getImageInformation`: a record built from a fresh builder
      with the dialog's settings, one copy per target resolution. It fails
      when there is neither export name nor file, or when the algorithm
      rejects the method. The built record holds the dialog's settings, the
      file name as the export name when none is set, and PNG for a
      nine-patch. */
  function Base(s: State): (r: Result<Info.ImageInformation>)
    ensures r.Err? <==> (s.exportName.None? && s.imageFile.None?) || RA.GetMethod(s.algorithm, s.methodName).Err?
    ensures r.Ok? ==>
      var b := r.value;
      && b.imageFile == s.imageFile && b.exportPath == s.exportRoot
      && b.exportName == (if s.exportName.Some? then s.exportName else Some(Paths.FileName(s.imageFile.value)))
      && b.algorithm == s.algorithm && Ok(b.resizeMethod) == RA.GetMethod(s.algorithm, s.methodName)
      && b.ninePatch == s.ninePatch && b.format == (if s.ninePatch then PNG else s.format)
      && b.destination == s.destination && !b.vector
  {
    FirstCalls(s);
    var b :- Info.ApplyAll(Info.NewBuilder(),
      [Info.SetExportName(s.exportName), Info.SetImageFile(s.imageFile), Info.SetAlgorithm(s.algorithm)]);
    var m :- RA.GetMethod(s.algorithm, s.methodName);
    LastCalls(b, s, m);
    Info.ApplyAll(b, [Info.SetMethod(m), Info.SetExportPath(s.exportRoot), Info.SetNinePatch(s.ninePatch),
                      Info.SetFormat(s.format), Info.SetDestination(s.destination)])
  }

  /** The calls before the method lookup: name, file and algorithm. */
  lemma FirstCalls(s: State)
    ensures
      var r1 := Info.WithImageFile(Info.NewBuilder().(exportName := s.exportName), s.imageFile);
      Info.ApplyAll(Info.NewBuilder(),
        [Info.SetExportName(s.exportName), Info.SetImageFile(s.imageFile), Info.SetAlgorithm(s.algorithm)])
      == (if r1.Ok? then Ok(r1.value.(algorithm := s.algorithm)) else Err(r1.error))
  {
    var cs := [Info.SetExportName(s.exportName), Info.SetImageFile(s.imageFile), Info.SetAlgorithm(s.algorithm)];
    var b0 := Info.NewBuilder().(exportName := s.exportName);
    assert Info.Apply(Info.NewBuilder(), cs[0]) == Ok(b0);
    assert cs[1..] == [Info.SetImageFile(s.imageFile), Info.SetAlgorithm(s.algorithm)];
    assert cs[1..][1..] == [Info.SetAlgorithm(s.algorithm)];
    var r1 := Info.WithImageFile(b0, s.imageFile);
    if r1.Ok? {
      var b2 := r1.value.(algorithm := s.algorithm);
      assert Info.ApplyAll(b2, cs[1..][1..][1..]) == Ok(b2);
      assert Info.ApplyAll(r1.value, cs[1..][1..]) == Ok(b2);
      assert Info.ApplyAll(b0, cs[1..]) == Ok(b2);
    }
  }

  /** The calls after the method lookup: method, path, nine-patch, format
      and destination. */
  lemma LastCalls(b: Info.ImageInformation, s: State, m: Option<RA.Method>)
    ensures
      var r := Info.ApplyAll(b, [Info.SetMethod(m), Info.SetExportPath(s.exportRoot), Info.SetNinePatch(s.ninePatch),
                                 Info.SetFormat(s.format), Info.SetDestination(s.destination)]);
      && r.Ok? && r.value.resizeMethod == m && r.value.exportPath == s.exportRoot
      && r.value.ninePatch == s.ninePatch && r.value.format == (if s.ninePatch then PNG else s.format)
      && r.value.destination == s.destination && r.value.imageFile == b.imageFile
      && r.value.exportName == b.exportName && r.value.algorithm == b.algorithm && r.value.vector == b.vector
  {
    var c1 := b.(resizeMethod := m, exportPath := s.exportRoot);
    var c2 := Info.WithFormat(c1.(ninePatch := s.ninePatch), c1.format);
    var c3 := Info.WithFormat(c2, s.format).(destination := s.destination);
    var t5: seq<Info.Call> := [Info.SetDestination(s.destination)] + [];
    var t4 := [Info.SetFormat(s.format)] + t5;
    var t3 := [Info.SetNinePatch(s.ninePatch)] + t4;
    var t2 := [Info.SetExportPath(s.exportRoot)] + t3;
    var t1 := [Info.SetMethod(m)] + t2;
    Info.ApplyFirst(Info.WithFormat(c2, s.format), Info.SetDestination(s.destination), [], c3);
    Info.ApplyFirst(c2, Info.SetFormat(s.format), t5, c3);
    Info.ApplyFirst(c1, Info.SetNinePatch(s.ninePatch), t4, c3);
    Info.ApplyFirst(b.(resizeMethod := m), Info.SetExportPath(s.exportRoot), t3, c3);
    Info.ApplyFirst(b, Info.SetMethod(m), t2, c3);
    assert t1 == [Info.SetMethod(m), Info.SetExportPath(s.exportRoot), Info.SetNinePatch(s.ninePatch),
                  Info.SetFormat(s.format), Info.SetDestination(s.destination)];
  }

  /** `getImageInformation(project)`: exactly one entry per target
      resolution, each carrying that resolution and its scale factor, and
      all sharing the dialog's file, export name, path, algorithm, format
      and destination; a nine-patch is always exported as PNG. */
  function GetImageInformation(s: State): (r: Result<seq<Info.ImageInformation>>)
    ensures r.Err? <==> (s.exportName.None? && s.imageFile.None?) || RA.GetMethod(s.algorithm, s.methodName).Err?
    ensures r.Ok? ==>
      && (forall t :: t in s.targets <==> exists i :: 0 <= i < |r.value| && r.value[i].targetResolution == t)
      && (forall i, j :: 0 <= i < j < |r.value| ==> r.value[i].targetResolution != r.value[j].targetResolution)
      && (forall i :: 0 <= i < |r.value| ==>
           && r.value[i].factor == RealScaleFactor(s, r.value[i].targetResolution)
           && r.value[i].imageFile == s.imageFile && r.value[i].exportPath == s.exportRoot
           && r.value[i].exportName == (if s.exportName.Some? then s.exportName else Some(Paths.FileName(s.imageFile.value)))
           && r.value[i].algorithm == s.algorithm && r.value[i].destination == s.destination
           && r.value[i].ninePatch == s.ninePatch && r.value[i].format == (if s.ninePatch then PNG else s.format)
           && Info.PngIfNinePatch(r.value[i]))
  {
    var base :- Base(s);
    Ok(FanOut(s, base))
  }

  /** The second `getImageInformation`: the first of the edited entries,
      with the dialog's algorithm, method, path and format, fanned out the
      same way. Its file, export name, destination and nine-patch flag stay
      those of the entry; no entry at all fails on `get(0)`. */
  function GetImageInformationFor(s: State, infos: seq<Info.ImageInformation>): (r: Result<seq<Info.ImageInformation>>)
    ensures r.Err? <==> infos == [] || RA.GetMethod(s.algorithm, s.methodName).Err?
    ensures infos == [] ==> r == Err(IndexOutOfBounds)
    ensures r.Ok? ==>
      && (forall t :: t in s.targets <==> exists i :: 0 <= i < |r.value| && r.value[i].targetResolution == t)
      && (forall i :: 0 <= i < |r.value| ==>
           && r.value[i].factor == RealScaleFactor(s, r.value[i].targetResolution)
           && r.value[i].imageFile == infos[0].imageFile && r.value[i].exportName == infos[0].exportName
           && r.value[i].destination == infos[0].destination && r.value[i].ninePatch == infos[0].ninePatch
           && r.value[i].exportPath == s.exportRoot && r.value[i].algorithm == s.algorithm
           && Ok(r.value[i].resizeMethod) == RA.GetMethod(s.algorithm, s.methodName)
           && r.value[i].format == (if infos[0].ninePatch then PNG else s.format))
  {
    if infos == [] then Err(IndexOutOfBounds)
    else
      EditCalls(s, infos[0]);
      var b := Info.ApplyAll(infos[0], [Info.SetAlgorithm(s.algorithm)]).value;
      var m :- RA.GetMethod(s.algorithm, s.methodName);
      var base := Info.ApplyAll(b, [Info.SetMethod(m), Info.SetExportPath(s.exportRoot), Info.SetFormat(s.format)]).value;
      Ok(FanOut(s, base))
  }

  /** The calls of the second `getImageInformation`: algorithm, then
      method, path and format. */
  lemma EditCalls(s: State, b0: Info.ImageInformation)
    ensures Info.ApplyAll(b0, [Info.SetAlgorithm(s.algorithm)]) == Ok(b0.(algorithm := s.algorithm))
    ensures RA.GetMethod(s.algorithm, s.methodName).Ok? ==>
      var b1, m := b0.(algorithm := s.algorithm), RA.GetMethod(s.algorithm, s.methodName).value;
      Info.ApplyAll(b1, [Info.SetMethod(m), Info.SetExportPath(s.exportRoot), Info.SetFormat(s.format)])
        == Ok(Info.WithFormat(b1.(resizeMethod := m, exportPath := s.exportRoot), s.format))
  {
    var b1 := b0.(algorithm := s.algorithm);
    assert Info.ApplyAll(b0, [Info.SetAlgorithm(s.algorithm)]) == Ok(b1) by {
      assert [Info.SetAlgorithm(s.algorithm)][1..] == [];
    }
    var m := RA.GetMethod(s.algorithm, s.methodName);
    if m.Ok? {
      var ds := [Info.SetMethod(m.value), Info.SetExportPath(s.exportRoot), Info.SetFormat(s.format)];
      var c := Info.WithFormat(b1.(resizeMethod := m.value, exportPath := s.exportRoot), s.format);
      assert Info.ApplyAll(b1, ds) == Ok(c) by {
        assert ds[1..][1..][1..] == [];
        assert Info.ApplyAll(b1.(resizeMethod := m.value, exportPath := s.exportRoot), ds[1..][1..]) == Ok(c);
      }
    }
  }

  /** Opening a dialog's entries for editing and saving them unchanged gives
      back the same entries, provided the algorithm reads its pretty method
      name back as the same method. */
  lemma EditUnchangedRoundTrip(s: State, pretty: Option<RA.Method> -> Option<string>)
    requires Base(s).Ok? && s.targets != {}
    requires RA.GetMethod(s.algorithm, pretty(Base(s).value.resizeMethod)) == Ok(Base(s).value.resizeMethod)
    ensures GetImageInformation(s).Ok? && GetImageInformation(s).value != []
    ensures FromEntries(s.sourceResolution, GetImageInformation(s).value, pretty, true).Ok?
    ensures GetImageInformationFor(FromEntries(s.sourceResolution, GetImageInformation(s).value, pretty, true).value,
                                   GetImageInformation(s).value) == GetImageInformation(s)
  {
    var base := Base(s).value;
    var es := FanOut(s, base);
    assert GetImageInformation(s) == Ok(es);
    var t :| t in s.targets;
    assert es != [];
    var e := FromEntries(s.sourceResolution, es, pretty, true).value;
    EditedState(s, base, pretty);
    ReopenedFanOut(s, e, base, es);
  }

  /** The dialog state opened on a dialog's own entries holds that dialog's
      targets, source resolution, size ratio and the built record's settings. */
  lemma EditedState(s: State, base: Info.ImageInformation, pretty: Option<RA.Method> -> Option<string>)
    requires FanOut(s, base) != []
    ensures
      var e := FromEntries(s.sourceResolution, FanOut(s, base), pretty, true);
      && e.Ok? && e.value.targets == s.targets && e.value.sourceResolution == s.sourceResolution
      && e.value.sizeRatio == s.sizeRatio
      && e.value.algorithm == base.algorithm && e.value.methodName == pretty(base.resizeMethod)
      && e.value.exportRoot == base.exportPath && e.value.format == base.format
  {
    var es := FanOut(s, base);
    var e := FromEntries(s.sourceResolution, es, pretty, true).value;
    assert es[0] == base.(targetResolution := es[0].targetResolution, factor := RealScaleFactor(s, es[0].targetResolution));
    var sf := ScaleFactors.ScaleFactor(es[0].targetResolution, s.sourceResolution);
    assert e.sizeRatio * sf == sf * s.sizeRatio;
    assert e.targets == s.targets;
  }

  /** Saving the reopened state over the entries reproduces them. */
  lemma ReopenedFanOut(s: State, e: State, base: Info.ImageInformation, es: seq<Info.ImageInformation>)
    requires es == FanOut(s, base) && es != [] && Info.PngIfNinePatch(base)
    requires e.targets == s.targets && e.sourceResolution == s.sourceResolution && e.sizeRatio == s.sizeRatio
    requires e.algorithm == base.algorithm && RA.GetMethod(e.algorithm, e.methodName) == Ok(base.resizeMethod)
    requires e.exportRoot == base.exportPath && e.format == base.format
    ensures GetImageInformationFor(e, es) == Ok(es)
  {
    assert es[0] == base.(targetResolution := es[0].targetResolution, factor := RealScaleFactor(s, es[0].targetResolution));
    EditedBase(e, es);
    SameFanOut(e, s, es[0], base);
  }

  /** Re-saving entries whose settings the dialog already holds rebuilds the
      first entry unchanged and fans it out again. */
  lemma EditedBase(e: State, es: seq<Info.ImageInformation>)
    requires es != [] && Info.PngIfNinePatch(es[0])
    requires e.algorithm == es[0].algorithm && RA.GetMethod(e.algorithm, e.methodName) == Ok(es[0].resizeMethod)
    requires e.exportRoot == es[0].exportPath && e.format == es[0].format
    ensures GetImageInformationFor(e, es) == Ok(FanOut(e, es[0]))
  {
    var b := es[0];
    assert Info.ApplyAll(b, [Info.SetAlgorithm(e.algorithm)]) == Ok(b) by {
      Info.ApplyFirst(b, Info.SetAlgorithm(e.algorithm), [], b);
      assert [Info.SetAlgorithm(e.algorithm)] + [] == [Info.SetAlgorithm(e.algorithm)];
    }
    var t3: seq<Info.Call> := [Info.SetFormat(e.format)] + [];
    var t2 := [Info.SetExportPath(e.exportRoot)] + t3;
    var t1 := [Info.SetMethod(b.resizeMethod)] + t2;
    Info.ApplyFirst(b, Info.SetFormat(e.format), [], b);
    Info.ApplyFirst(b, Info.SetExportPath(e.exportRoot), t3, b);
    Info.ApplyFirst(b, Info.SetMethod(b.resizeMethod), t2, b);
    assert t1 == [Info.SetMethod(b.resizeMethod), Info.SetExportPath(e.exportRoot), Info.SetFormat(e.format)];
  }

  /** Fanning out two records that differ at most in resolution and factor,
      over the same targets and scale factors, gives the same entries. */
  lemma SameFanOut(e: State, s: State, x: Info.ImageInformation, y: Info.ImageInformation)
    requires e.targets == s.targets && e.sourceResolution == s.sourceResolution && e.sizeRatio == s.sizeRatio
    requires x.(targetResolution := y.targetResolution, factor := y.factor) == y
    ensures FanOut(e, x) == FanOut(s, y)
  {
    var ts := Enumerate(s.targets);
    assert forall t :: RealScaleFactor(e, t) == RealScaleFactor(s, t);
    var a, b := FanOut(e, x), FanOut(s, y);
    assert |a| == |ts| == |b|;
    forall i | 0 <= i < |a| ensures a[i] == b[i] {
      assert a[i] == x.(targetResolution := ts[i], factor := RealScaleFactor(e, ts[i]));
      assert b[i] == y.(targetResolution := ts[i], factor := RealScaleFactor(s, ts[i]));
    }
  }

  /** A fresh nine-patch file is exported only as PNG, whatever the default
      format. */
  lemma NinePatchFileExportsPng(d: Preset, exportRoot: Option<string>, file: string, readable: bool)
    requires EndsWith(Paths.FileName(file), ".9.png")
    ensures GetImageInformation(FromFile(d, exportRoot, file, readable)).Ok? ==>
      forall i :: 0 <= i < |GetImageInformation(FromFile(d, exportRoot, file, readable)).value| ==>
        GetImageInformation(FromFile(d, exportRoot, file, readable)).value[i].format == PNG
  {
  }
}

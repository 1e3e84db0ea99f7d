/** The multi-drawable importer's controller
    (controllers/multi/MultiImporterController.java): at most one source
    image per density, the density picked last, the target folder and the
    export name. Setters return the new state and whether observers were
    notified; `getAbsolutePath()` is taken to return the path unchanged. */
module MultiImporter {
  import opened Wrappers
  import opened Strings
  import opened Densities
  import Paths
  import TextUtils
  import ExportNames
  import Info = ImageInfo

  datatype State = State(
    images: map<Resolution, Info.ImageInformation>,
    targetRoot: Option<string>,
    exportName: Option<string>,
    mostRecent: Option<Resolution>)

  datatype Changed = Changed(state: State, notified: bool)

  /** The constructor: no image, root, name or recent density. */
  const Empty := State(map[], None, None, None)

  /** Every stored image has a file and is filed under its own density. */
  predicate Valid(s: State) {
    forall r :: r in s.images ==> s.images[r].targetResolution == r && s.images[r].imageFile.Some?
  }

  /** The record `addImage` stores: a fresh builder given the file (which
      also names the record after the file) and the density. The call to a
      `setResolution` the builder does not declare is read as
      `setTargetResolution`. */
  function Entry(source: string, res: Resolution): (e: Info.ImageInformation)
    ensures Info.ApplyAll(Info.NewBuilder(), [Info.SetImageFile(Some(source)), Info.SetTargetResolution(res)]) == Ok(e)
    ensures e.imageFile == Some(source) && e.targetResolution == res
  {
    var e := Info.NewBuilder().(imageFile := Some(source), exportName := Some(Paths.FileName(source)),
                                targetResolution := res);
    var b := Info.NewBuilder().(imageFile := Some(source), exportName := Some(Paths.FileName(source)));
    Info.ApplyFirst(b, Info.SetTargetResolution(res), [], e);
    Info.ApplyFirst(Info.NewBuilder(), Info.SetImageFile(Some(source)), [Info.SetTargetResolution(res)] + [], e);
    assert [Info.SetImageFile(Some(source))] + ([Info.SetTargetResolution(res)] + [])
        == [Info.SetImageFile(Some(source)), Info.SetTargetResolution(res)];
    e
  }

  /** `addImage(source, resolution)`: stores (or replaces) the image of that
      density, makes it the most recent one, and names the export after the
      file while no name is set. Always notifies. */
  function AddImage(s: State, source: string, res: Resolution): (c: Changed)
    ensures c.notified
    ensures c.state.images == s.images[res := Entry(source, res)]
    ensures c.state.mostRecent == Some(res) && c.state.targetRoot == s.targetRoot
    ensures TextUtils.IsEmpty(s.exportName) ==>
      c.state.exportName == Some(ExportNames.GetExportNameFromFilename(Paths.FileName(source)))
    ensures !TextUtils.IsEmpty(s.exportName) ==> c.state.exportName == s.exportName
    ensures Valid(s) ==> Valid(c.state)
  {
    var name := if TextUtils.IsEmpty(s.exportName)
                then Some(ExportNames.GetExportNameFromFilename(Paths.FileName(source)))
                else s.exportName;
    Changed(State(s.images[res := Entry(source, res)], s.targetRoot, name, Some(res)), true)
  }

  /** `setTargetRoot(path)`: null-safe comparison with the current root. */
  function SetTargetRoot(s: State, path: string): (c: Changed)
    ensures c.state == s.(targetRoot := Some(path))
    ensures c.notified <==> s.targetRoot != Some(path)
  {
    if s.targetRoot == Some(path) then Changed(s, false) else Changed(s.(targetRoot := Some(path)), true)
  }

  /** `setExportName(name)`: null-safe comparison with the current name. */
  function SetExportName(s: State, name: Option<string>): (c: Changed)
    ensures c.state == s.(exportName := name)
    ensures c.notified <==> s.exportName != name
  {
    if s.exportName == name then Changed(s, false) else Changed(s.(exportName := name), true)
  }

  /** `setMostRecentImage(resolution)`. */
  function SetMostRecentImage(s: State, res: Resolution): (c: Changed)
    ensures c.state == s.(mostRecent := Some(res))
    ensures c.notified <==> s.mostRecent != Some(res)
  {
    if s.mostRecent == Some(res) then Changed(s, false) else Changed(s.(mostRecent := Some(res)), true)
  }

  /** `getMostRecentImage()`: the file of the most recent density's image, or
      null when that density holds none. */
  function GetMostRecentImage(s: State): (f: Option<string>)
    ensures s.mostRecent.None? || s.mostRecent.value !in s.images ==> f.None?
    ensures s.mostRecent.Some? && s.mostRecent.value in s.images ==> f == s.images[s.mostRecent.value].imageFile
  {
    if s.mostRecent.None? || s.mostRecent.value !in s.images then None
    else s.images[s.mostRecent.value].imageFile
  }

  /** The image just added is the most recent one, whatever was there before. */
  lemma AddedIsMostRecent(s: State, source: string, res: Resolution)
    ensures GetMostRecentImage(AddImage(s, source, res).state) == Some(source)
  {
  }

  /** Adding a second image for a density replaces the first one; the other
      densities keep theirs. */
  lemma AddReplaces(s: State, a: string, b: string, res: Resolution, other: Resolution)
    requires other != res
    ensures AddImage(AddImage(s, a, res).state, b, res).state.images[res] == Entry(b, res)
    ensures other in s.images ==> AddImage(s, b, res).state.images[other] == s.images[other]
    ensures |AddImage(AddImage(s, a, res).state, b, res).state.images| == |AddImage(s, a, res).state.images|
  {
  }

  /** Only a non-empty name from the first file is kept: a later image does
      not rename the export, unless the first file's sanitised name was
      empty, in which case the later file names it. */
  lemma ExportNameSeededOnce(a: string, ra: Resolution, b: string, rb: Resolution)
    ensures
      var na := ExportNames.GetExportNameFromFilename(Paths.FileName(a));
      var nb := ExportNames.GetExportNameFromFilename(Paths.FileName(b));
      var s := AddImage(AddImage(Empty, a, ra).state, b, rb).state;
      && (na != [] ==> s.exportName == Some(na))
      && (na == [] ==> s.exportName == Some(nb))
  {
    var na := ExportNames.GetExportNameFromFilename(Paths.FileName(a));
    var s1 := AddImage(Empty, a, ra).state;
    assert s1.exportName == Some(na);
    assert TextUtils.IsEmpty(s1.exportName) <==> na == [];
  }

  /** A stored image as the task exports it. */
  function Exported(s: State, k: Resolution): Info.ImageInformation
    requires k in s.images
  {
    s.images[k].(exportPath := s.targetRoot, exportName := s.exportName)
  }

  /** The order in which `getTask` visits the stored densities: the map's
      iteration order, modelled as declaration order. */
  function TaskOrder(s: State): (ks: seq<Resolution>)
    ensures |ks| == |s.images|
    ensures forall k :: k in ks <==> k in s.images
    ensures forall i, j :: 0 <= i < j < |ks| ==> ks[i] != ks[j]
  {
    EnumerateSize(s.images.Keys);
    Enumerate(s.images.Keys)
  }

  /** `getTask(project)`: every stored image, in `TaskOrder`, with the
      current target root and export name. */
  function GetTask(s: State): (r: seq<Info.ImageInformation>)
    ensures |r| == |s.images|
    ensures forall i :: 0 <= i < |r| ==> r[i].exportPath == s.targetRoot && r[i].exportName == s.exportName
    ensures forall i :: 0 <= i < |r| ==> r[i] == Exported(s, TaskOrder(s)[i])
    ensures forall k :: k in s.images ==> Exported(s, k) in r
  {
    var ks := TaskOrder(s);
    ExportedAllCovers(s, ks);
    ExportedAll(s, ks)
  }

  /** The stored images of some densities, in the order given. */
  function ExportedAll(s: State, ks: seq<Resolution>): (r: seq<Info.ImageInformation>)
    requires forall k :: k in ks ==> k in s.images
    ensures |r| == |ks| && forall i :: 0 <= i < |ks| ==> r[i] == Exported(s, ks[i])
  {
    seq(|ks|, i requires 0 <= i < |ks| => Exported(s, ks[i]))
  }

  /** Every stored density listed gives its image to the task. */
  lemma ExportedAllCovers(s: State, ks: seq<Resolution>)
    requires forall k :: k in ks <==> k in s.images
    ensures forall k :: k in s.images ==> Exported(s, k) in ExportedAll(s, ks)
  {
    var r := ExportedAll(s, ks);
    forall k | k in s.images ensures Exported(s, k) in r {
      var i :| 0 <= i < |ks| && ks[i] == k;
      assert r[i] == Exported(s, k);
    }
  }

  /** For a valid state the task holds exactly one entry per stored density. */
  lemma TaskOnePerDensity(s: State)
    requires Valid(s)
    ensures forall i, j :: 0 <= i < j < |GetTask(s)| ==> GetTask(s)[i].targetResolution != GetTask(s)[j].targetResolution
    ensures forall k :: k in s.images <==> exists i :: 0 <= i < |GetTask(s)| && GetTask(s)[i].targetResolution == k
  {
    var r := GetTask(s);
    var ks := TaskOrder(s);
    assert forall i :: 0 <= i < |r| ==> r[i].targetResolution == ks[i];
  }

  /** Setting root, name or most recent density to the current value changes
      nothing and notifies nobody. */
  lemma UnchangedValuesDoNotNotify(s: State)
    ensures s.targetRoot.Some? ==> SetTargetRoot(s, s.targetRoot.value) == Changed(s, false)
    ensures SetExportName(s, s.exportName) == Changed(s, false)
    ensures s.mostRecent.Some? ==> SetMostRecentImage(s, s.mostRecent.value) == Changed(s, false)
  {
  }
}

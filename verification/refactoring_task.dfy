/** The list of images an export task collects before it runs
    (images/RefactoringTask.java of the current plugin generation). The
    export itself, progress reporting and the final move are I/O; what is
    modelled is which images the task holds and whether `run` does anything.
    The conflict dialog and the copy's pairing check live in `Conflicts`. */
module RefactoringTask {
  import opened Wrappers
  import Conflicts
  import opened ImageInfo
  import opened Strings

  /** `addImage(info)`: a null entry is ignored, anything else is appended. */
  function AddImage<T>(images: seq<T>, info: Option<T>): (r: seq<T>)
    ensures info.None? ==> r == images
    ensures info.Some? ==> |r| == |images| + 1 && r[..|images|] == images && r[|images|] == info.value
  {
    if info.None? then images else images + [info.value]
  }

  /** A sequence of `addImage` calls. */
  function AddAll<T>(images: seq<T>, infos: seq<Option<T>>): seq<T>
    decreases |infos|
  {
    if infos == [] then images else AddAll(AddImage(images, infos[0]), infos[1..])
  }

  /** After any sequence of `addImage` calls the task holds exactly the
      non-null entries, in the order they were added. */
  lemma {:induction false} AddAllKeepsFound<T>(images: seq<T>, infos: seq<Option<T>>)
    ensures AddAll(images, infos) == images + Conflicts.Found(infos)
    decreases |infos|
  {
    if infos != [] {
      var rest := infos[1..];
      var head := if infos[0].Some? then [infos[0].value] else [];
      AddAllKeepsFound(AddImage(images, infos[0]), rest);
      assert AddImage(images, infos[0]) == images + head;
      assert Conflicts.Found(infos) == head + Conflicts.Found(rest);
      AppendAssoc(images, head, Conflicts.Found(rest));
    }
  }

  /** The two lists `move` hands to the copy: for every entry, in entry
      order, its temporary image (`getTempImage()`) and its target file
      (`getTargetFile()`). Entries are exported to their temporary images in
      the same order first. */
  datatype MovePlan = MovePlan(tempFiles: seq<string>, targets: seq<string>)

  /** The loop of `move`: one temporary image and one target per entry. */
  function MoveLists(pluginTemp: string, images: seq<ImageInformation>): (plan: MovePlan)
    ensures |plan.tempFiles| == |images| == |plan.targets|
  {
    MovePlan(seq(|images|, i requires 0 <= i < |images| => TempImage(pluginTemp, images[i])),
             seq(|images|, i requires 0 <= i < |images| => TargetFile(images[i])))
  }

  /** `run`: nothing at all (None) when the task holds no image; otherwise
      the entries are exported and moved, and the result is the list of
      temporary images and the list of targets the copy receives. */
  function Run(pluginTemp: string, images: seq<ImageInformation>): (plan: Option<MovePlan>)
    ensures plan.None? <==> |images| == 0
    ensures plan.Some? ==> |plan.value.tempFiles| == |images| == |plan.value.targets|
    ensures plan.Some? ==> forall i :: 0 <= i < |images| ==>
      plan.value.tempFiles[i] == TempImage(pluginTemp, images[i]) && plan.value.targets[i] == TargetFile(images[i])
  {
    if |images| == 0 then None else Some(MoveLists(pluginTemp, images))
  }

  /** Two entries that differ in resolution or export name are exported to
      different temporary images, so no export overwrites another. */
  lemma RunTempFilesDistinct(pluginTemp: string, images: seq<ImageInformation>, i: nat, j: nat)
    requires i < |images| && j < |images|
    requires images[i].targetResolution != images[j].targetResolution || Text(images[i].exportName) != Text(images[j].exportName)
    ensures Run(pluginTemp, images).Some?
    ensures Run(pluginTemp, images).value.tempFiles[i] != Run(pluginTemp, images).value.tempFiles[j]
  {
    if TempImage(pluginTemp, images[i]) == TempImage(pluginTemp, images[j]) {
      TempImageInjective(pluginTemp, images[i], images[j]);
    }
  }

  /** Two entries under one export path that differ in destination,
      resolution, export name or format are copied to different targets. */
  lemma RunTargetsDistinct(pluginTemp: string, images: seq<ImageInformation>, i: nat, j: nat)
    requires i < |images| && j < |images| && images[i].exportPath == images[j].exportPath
    requires images[i].destination != images[j].destination || images[i].targetResolution != images[j].targetResolution
          || Text(images[i].exportName) != Text(images[j].exportName) || images[i].format != images[j].format
    ensures Run(pluginTemp, images).Some?
    ensures Run(pluginTemp, images).value.targets[i] != Run(pluginTemp, images).value.targets[j]
  {
    if TargetFile(images[i]) == TargetFile(images[j]) {
      TargetFileInjective(images[i], images[j]);
    }
  }

  /** A task built by `addImage` calls does nothing when run exactly when
      every entry added was null; otherwise it moves the non-null entries,
      in the order they were added. */
  lemma RunAfterAdds(pluginTemp: string, infos: seq<Option<ImageInformation>>)
    ensures Run(pluginTemp, AddAll([], infos)).None? <==> forall i :: 0 <= i < |infos| ==> infos[i].None?
    ensures Run(pluginTemp, AddAll([], infos)).Some? ==>
      Run(pluginTemp, AddAll([], infos)).value == MoveLists(pluginTemp, Conflicts.Found(infos))
  {
    AddAllKeepsFound([], infos);
    assert AddAll([], infos) == Conflicts.Found(infos);
    if exists i :: 0 <= i < |infos| && infos[i].Some? {
      var i :| 0 <= i < |infos| && infos[i].Some?;
      assert infos[i].value in Conflicts.Found(infos);
    }
  }
}

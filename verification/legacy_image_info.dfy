/** The image record of the earlier plugin generation
    (images/ImageInformation.java): an immutable description of one image to
    produce, its builder, and the two files derived from it. The IDE's
    `.idea` folder, which `build` reads from the project, is a parameter. */
module LegacyImageInfo {
  import opened Wrappers
  import opened Strings
  import opened LegacyDensities
  import RA = ResizeAlgorithms
  import Paths
  import ImageUtils

  /** `KEEP`: a target dimension that is not forced. */
  const Keep: int := -1
  /** `UNSET`: no scale factor chosen yet. */
  const Unset: real := -1.0

  datatype ImageInformation = ImageInformation(
    imageFile: Option<string>,
    resolution: Density,
    factor: real,
    imageWidth: int,
    imageHeight: int,
    targetWidth: int,
    targetHeight: int,
    exportPath: Option<string>,
    exportName: Option<string>,
    ninePatch: bool,
    algorithm: RA.Algorithm,
    resizeMethod: Option<RA.Method>,
    tempDir: string)

  /** The builder holds every field but the temporary folder, which `build`
      derives from the project. */
  datatype Builder = Builder(
    imageFile: Option<string>,
    resolution: Density,
    factor: real,
    imageWidth: int,
    imageHeight: int,
    targetWidth: int,
    targetHeight: int,
    exportPath: Option<string>,
    exportName: Option<string>,
    ninePatch: bool,
    algorithm: RA.Algorithm,
    resizeMethod: Option<RA.Method>)

  /** `newBuilder()`: the field initialisers of `Builder`. */
  function NewBuilder(): (b: Builder)
    ensures b.imageFile.None? && b.exportPath.None? && b.exportName.None?
    ensures b.factor == Unset && b.resolution == XHDPI
    ensures b.targetWidth == Keep && b.targetHeight == Keep
    ensures !b.ninePatch
    ensures b.algorithm == RA.SCALR && b.resizeMethod == Some(RA.Automatic)
    ensures b.imageWidth == 0 && b.imageHeight == 0
  {
    Builder(None, XHDPI, Unset, 0, 0, Keep, Keep, None, None, false, RA.SCALR, Some(RA.Automatic))
  }

  /** `build(project)` with the project's `.idea` folder as `ideaDir`: the
      result carries the builder's fields (see `CopyRoundTrip`). */
  function Build(b: Builder, ideaDir: string): (info: ImageInformation)
    ensures info.tempDir == ideaDir
    ensures info.imageFile == b.imageFile && info.exportPath == b.exportPath && info.exportName == b.exportName
    ensures info.resolution == b.resolution && info.factor == b.factor && info.ninePatch == b.ninePatch
  {
    ImageInformation(b.imageFile, b.resolution, b.factor, b.imageWidth, b.imageHeight,
                     b.targetWidth, b.targetHeight, b.exportPath, b.exportName,
                     b.ninePatch, b.algorithm, b.resizeMethod, ideaDir)
  }

  /** `newBuilder(info)`: every field is copied except the temporary folder. */
  function CopyOf(info: ImageInformation): (b: Builder)
    ensures b.exportName == info.exportName && b.resolution == info.resolution
    ensures Build(b, info.tempDir) == info
  {
    Builder(info.imageFile, info.resolution, info.factor, info.imageWidth, info.imageHeight,
            info.targetWidth, info.targetHeight, info.exportPath, info.exportName,
            info.ninePatch, info.algorithm, info.resizeMethod)
  }

  /** Copying a record into a builder and building it in the same folder
      restores the record, and copying a built record gives its builder. */
  lemma CopyRoundTrip(info: ImageInformation, b: Builder, ideaDir: string)
    ensures Build(CopyOf(info), info.tempDir) == info
    ensures CopyOf(Build(b, ideaDir)) == b
  {
  }

  /** `setImageFile(file)`: stores the file and, only when no export name is
      set yet, names the export after the file; a null file with no export
      name fails on `getName()`. */
  function SetImageFile(b: Builder, file: Option<string>): (r: Result<Builder>)
    ensures r.Err? <==> file.None? && b.exportName.None?
    ensures r.Err? ==> r.error == NullPointer
    ensures r.Ok? ==> r.value == b.(imageFile := file, exportName := r.value.exportName)
    ensures r.Ok? && b.exportName.Some? ==> r.value.exportName == b.exportName
    ensures r.Ok? && b.exportName.None? ==> r.value.exportName == Some(Paths.FileName(file.value))
  {
    if b.exportName.Some? then Ok(b.(imageFile := file))
    else if file.None? then Err(NullPointer)
    else Ok(b.(imageFile := file, exportName := Some(Paths.FileName(file.value))))
  }

  /** The first image file names the export; later ones do not rename it. */
  lemma FirstFileNamesExport(b: Builder, f1: string, f2: Option<string>)
    requires b.exportName.None?
    ensures SetImageFile(b, Some(f1)).Ok?
    ensures SetImageFile(SetImageFile(b, Some(f1)).value, f2).Ok?
    ensures SetImageFile(SetImageFile(b, Some(f1)).value, f2).value.exportName == Some(Paths.FileName(f1))
  {
  }

  /** `getTargetFile()`: `ImageUtils.getTargetFile` on the export path,
      density and export name. */
  function TargetFile(info: ImageInformation): (r: string)
    ensures StartsWith(r, Text(info.exportPath) + "/drawable-" + Id(info.resolution) + "/")
    ensures EndsWith(r, Text(info.exportName) + ".png")
  {
    var r := ImageUtils.TargetFile(info.exportPath, info.resolution, info.exportName);
    assert r == Text(info.exportPath) + "/drawable-" + Id(info.resolution) + "/" + (Text(info.exportName) + ".png");
    r
  }

  /** Two records with the same export path have the same target file only
      if they have the same density and export name. */
  lemma TargetFileInjective(a: ImageInformation, b: ImageInformation)
    requires a.exportPath == b.exportPath && TargetFile(a) == TargetFile(b)
    ensures a.resolution == b.resolution && Text(a.exportName) == Text(b.exportName)
  {
    ImageUtils.TargetFileInjective(a.exportPath, a.resolution, a.exportName, b.resolution, b.exportName);
  }

  /** `getTempImage()`: "<tempDir>/plugin-images/<density>/<export name>". The
      helper it calls is declared for the current generation's density type,
      so the density's own text (its lower-case id) is what is modelled. */
  function TempImage(info: ImageInformation): (r: string)
    ensures StartsWith(r, info.tempDir + "/plugin-images/" + Id(info.resolution) + "/")
    ensures EndsWith(r, "/" + Text(info.exportName))
  {
    var r := info.tempDir + "/plugin-images/" + Id(info.resolution) + "/" + Text(info.exportName);
    assert r == (info.tempDir + "/plugin-images/" + Id(info.resolution) + "/") + Text(info.exportName);
    assert r == (info.tempDir + "/plugin-images/" + Id(info.resolution)) + ("/" + Text(info.exportName));
    r
  }

  /** In one temporary folder, distinct density/name pairs get distinct
      temporary files. */
  lemma TempImageInjective(a: ImageInformation, b: ImageInformation)
    requires a.tempDir == b.tempDir && TempImage(a) == TempImage(b)
    ensures a.resolution == b.resolution && Text(a.exportName) == Text(b.exportName)
  {
    FramedSegmentsEqual(a.tempDir + "/plugin-images/", Id(a.resolution), Text(a.exportName),
                        Id(b.resolution), Text(b.exportName), "", '/');
    IdIsLower(a.resolution);
  }
}

/** The image record of the current plugin generation
    (model/ImageInformation.java) and its builder. Besides the fields of the
    earlier record it carries a format, a destination and a vector flag, and
    its builder keeps nine-patch images in PNG. The plugin's temporary path
    is a parameter. */
module ImageInfo {
  import opened Wrappers
  import opened Strings
  import opened Densities
  import opened Formats
  import RA = ResizeAlgorithms
  import Paths
  import Defaults

  datatype ImageInformation = ImageInformation(
    imageFile: Option<string>,
    targetResolution: Resolution,
    factor: real,
    exportPath: Option<string>,
    format: Format,
    destination: Destination,
    exportName: Option<string>,
    ninePatch: bool,
    vector: bool,
    algorithm: RA.Algorithm,
    resizeMethod: Option<RA.Method>)

  /** The builder's state has exactly the record's fields; `build()` copies
      them over, so a builder is modelled by the record it would build. */
  type Builder = ImageInformation

  /** `newBuilder()`: no file, path or name, factor 1, XHDPI, neither
      nine-patch nor vector, and the defaults' algorithm, method, format and
      destination. */
  function NewBuilder(): (b: Builder)
    ensures b.imageFile.None? && b.exportPath.None? && b.exportName.None?
    ensures b.factor == 1.0 && b.targetResolution == XHDPI
    ensures !b.ninePatch && !b.vector
    ensures b.algorithm == Defaults.Algorithm
    ensures RA.GetMethod(Defaults.Algorithm, Some(Defaults.Method)) == Ok(b.resizeMethod)
    ensures b.format == Defaults.Format && b.destination == Defaults.Destination
  {
    ImageInformation(None, XHDPI, 1.0, None, Defaults.Format, Defaults.Destination, None,
                     false, false, Defaults.Algorithm, Some(RA.Automatic))
  }

  /** The builder's setters. */
  datatype Call =
    | SetExportName(name: Option<string>)
    | SetExportPath(path: Option<string>)
    | SetTargetResolution(resolution: Resolution)
    | SetFactor(factor: real)
    | SetVector(vector: bool)
    | SetNinePatch(ninePatch: bool)
    | SetAlgorithm(algorithm: RA.Algorithm)
    | SetMethod(resizeMethod: Option<RA.Method>)
    | SetImageFile(file: Option<string>)
    | SetFormat(format: Format)
    | SetDestination(destination: Destination)

  /** `setFormat(format)`: a nine-patch image is always PNG. */
  function WithFormat(b: Builder, format: Format): (r: Builder)
    ensures r.format == PNG || r.format == format
    ensures r.ninePatch ==> r.format == PNG
    ensures !b.ninePatch ==> r.format == format
    ensures r.(format := b.format) == b
  {
    b.(format := if b.ninePatch then PNG else format)
  }

  /** `setImageFile(file)`: fills the export name from the file name only
      while it is null; a null file then fails on `getName()`. */
  function WithImageFile(b: Builder, file: Option<string>): (r: Result<Builder>)
    ensures r.Err? <==> file.None? && b.exportName.None?
    ensures r.Err? ==> r.error == NullPointer
    ensures r.Ok? ==> r.value == b.(imageFile := file, exportName := r.value.exportName)
    ensures r.Ok? && b.exportName.Some? ==> r.value.exportName == b.exportName
    ensures r.Ok? && b.exportName.None? ==> r.value.exportName == Some(Paths.FileName(file.value))
  {
    if b.exportName.Some? then Ok(b.(imageFile := file))
    else if file.None? then Err(NullPointer)
    else Ok(b.(imageFile := file, exportName := Some(Paths.FileName(file.value))))
  }

  /** One setter call. `setNinePatch` re-applies the current format, so
      switching nine-patch on turns the format into PNG. */
  function Apply(b: Builder, c: Call): (r: Result<Builder>)
    ensures c.SetImageFile? ==> r == WithImageFile(b, c.file)
    ensures !c.SetImageFile? ==> r.Ok?
  {
    match c
    case SetExportName(name) => Ok(b.(exportName := name))
    case SetExportPath(path) => Ok(b.(exportPath := path))
    case SetTargetResolution(res) => Ok(b.(targetResolution := res))
    case SetFactor(factor) => Ok(b.(factor := factor))
    case SetVector(vector) => Ok(b.(vector := vector))
    case SetNinePatch(ninePatch) => Ok(WithFormat(b.(ninePatch := ninePatch), b.format))
    case SetAlgorithm(algorithm) => Ok(b.(algorithm := algorithm))
    case SetMethod(m) => Ok(b.(resizeMethod := m))
    case SetImageFile(file) => WithImageFile(b, file)
    case SetFormat(format) => Ok(WithFormat(b, format))
    case SetDestination(destination) => Ok(b.(destination := destination))
  }

  /** A chain of setter calls; the first failing call ends it. */
  function ApplyAll(b: Builder, calls: seq<Call>): (r: Result<Builder>)
    ensures calls == [] ==> r == Ok(b)
    ensures (forall i :: 0 <= i < |calls| ==> !calls[i].SetImageFile?) ==> r.Ok?
    ensures r.Err? ==> r.error == NullPointer && exists i :: 0 <= i < |calls| && calls[i].SetImageFile? && calls[i].file.None?
    decreases |calls|
  {
    if calls == [] then Ok(b)
    else
      assert forall i :: 1 <= i < |calls| ==> calls[i] == calls[1..][i - 1];
      var next :- Apply(b, calls[0]);
      ApplyAll(next, calls[1..])
  }

  /** A successful first call followed by the rest of a call sequence. */
  lemma ApplyFirst(b: Builder, c: Call, rest: seq<Call>, x: Builder)
    requires Apply(b, c).Ok? && ApplyAll(Apply(b, c).value, rest) == Ok(x)
    ensures ApplyAll(b, [c] + rest) == Ok(x)
  {
    assert ([c] + rest)[1..] == rest;
  }

  /** The builder invariant: a nine-patch image is a PNG. */
  predicate PngIfNinePatch(b: Builder) {
    b.ninePatch ==> b.format == PNG
  }

  /** Every setter keeps the invariant; in particular `setNinePatch(true)`
      establishes it, and `setNinePatch(false)` keeps the format. */
  lemma ApplyKeepsPng(b: Builder, c: Call)
    requires PngIfNinePatch(b)
    ensures Apply(b, c).Ok? ==> PngIfNinePatch(Apply(b, c).value)
    ensures c == SetNinePatch(true) ==> Apply(b, c) == Ok(b.(ninePatch := true, format := PNG))
    ensures c == SetNinePatch(false) ==> Apply(b, c) == Ok(b.(ninePatch := false))
  {
  }

  /** Across every call sequence that starts from a consistent builder (the
      fresh one or a copy of a built record), the built record of a
      nine-patch image has format PNG. */
  lemma {:induction false} ApplyAllKeepsPng(b: Builder, calls: seq<Call>)
    requires PngIfNinePatch(b)
    ensures ApplyAll(b, calls).Ok? ==> PngIfNinePatch(ApplyAll(b, calls).value)
    decreases |calls|
  {
    if calls != [] {
      ApplyKeepsPng(b, calls[0]);
      if Apply(b, calls[0]).Ok? {
        ApplyAllKeepsPng(Apply(b, calls[0]).value, calls[1..]);
      }
    }
  }

  /** The fresh builder satisfies the invariant, so every record built from
      any sequence of setter calls does. */
  lemma BuiltFromNewIsPng(calls: seq<Call>)
    ensures ApplyAll(NewBuilder(), calls).Ok? ==> PngIfNinePatch(ApplyAll(NewBuilder(), calls).value)
  {
    ApplyAllKeepsPng(NewBuilder(), calls);
  }

  /** `getTargetFile()`: `TARGET_FILE_PATTERN` "%s/%s-%s/%s.%s" filled with the
      export path, the destination folder, the lower-case resolution, the
      export name and the lower-case format. */
  function TargetFile(info: ImageInformation): (r: string)
    ensures StartsWith(r, Text(info.exportPath) + "/" + FolderName(info.destination) + "-" + Label(info.targetResolution) + "/")
    ensures EndsWith(r, Text(info.exportName) + "." + Extension(info.format))
  {
    var folder := Text(info.exportPath) + "/" + FolderName(info.destination) + "-" + Label(info.targetResolution) + "/";
    var file := Text(info.exportName) + "." + Extension(info.format);
    folder + file
  }

  /** The target file with its fields grouped from the right. */
  lemma TargetFileShape(info: ImageInformation)
    ensures TargetFile(info) == Text(info.exportPath) + "/" + (FolderName(info.destination) + "-" +
      (Label(info.targetResolution) + "/" + (Text(info.exportName) + "." + Extension(info.format))))
  {
    var p, f, l, n, e := Text(info.exportPath), FolderName(info.destination), Label(info.targetResolution),
                         Text(info.exportName), Extension(info.format);
    calc {
      p + "/" + f + "-" + l + "/" + (n + "." + e);
      p + "/" + (f + "-" + l + "/" + (n + "." + e));
      p + "/" + (f + "-" + (l + "/" + (n + "." + e)));
    }
  }

  /** Under one export path the target file determines destination,
      resolution, export name and format. */
  lemma TargetFileInjective(a: ImageInformation, b: ImageInformation)
    requires a.exportPath == b.exportPath && TargetFile(a) == TargetFile(b)
    ensures a.destination == b.destination && a.targetResolution == b.targetResolution
    ensures Text(a.exportName) == Text(b.exportName) && a.format == b.format
  {
    var fa, la, na, ea := FolderName(a.destination), Label(a.targetResolution), Text(a.exportName), Extension(a.format);
    var fb, lb, nb, eb := FolderName(b.destination), Label(b.targetResolution), Text(b.exportName), Extension(b.format);
    TargetFileShape(a);
    TargetFileShape(b);
    DropCommonPrefix(Text(a.exportPath) + "/", fa + "-" + (la + "/" + (na + "." + ea)), fb + "-" + (lb + "/" + (nb + "." + eb)));
    FolderHasNoDash(a.destination);
    FolderHasNoDash(b.destination);
    SegmentsEqual(fa, la + "/" + (na + "." + ea), fb, lb + "/" + (nb + "." + eb), '-');
    LabelHasNoSlash(a.targetResolution);
    LabelHasNoSlash(b.targetResolution);
    SegmentsEqual(la, na + "." + ea, lb, nb + "." + eb, '/');
    ExtensionHasNoDot(a.format);
    ExtensionHasNoDot(b.format);
    LastSegmentsEqual(na, ea, nb, eb, '.');
    LabelIsLowerName(a.targetResolution);
    FolderNameDistinct(a.destination, b.destination);
    ExtensionDistinct(a.format, b.format);
  }

  lemma FolderHasNoDash(d: Destination)
    ensures '-' !in FolderName(d)
  {
  }

  lemma ExtensionHasNoDot(f: Format)
    ensures '.' !in Extension(f)
  {
  }

  lemma FolderNameDistinct(d: Destination, e: Destination)
    ensures FolderName(d) == FolderName(e) ==> d == e
  {
  }

  lemma ExtensionDistinct(f: Format, g: Format)
    ensures Extension(f) == Extension(g) ==> f == g
  {
  }

  lemma LabelHasNoSlash(r: Resolution)
    ensures '/' !in Label(r)
  {
  }

  /** The name of the plugin's folder of temporary images. */
  const PluginImages := "plugin-images"

  /** The "plugin-images" folder of the plugin's temporary path. */
  function ImagesDir(pluginTemp: string): (d: string)
    ensures EndsWith(d, "/" + PluginImages) && !EndsWith(d, "/")
  {
    var d := Paths.PathChild(pluginTemp, PluginImages);
    var t := "/" + PluginImages;
    assert d[|d| - |t|..] == t;
    assert d[|d| - 1] == d[|d| - |t|..][|t| - 1] == 's';
    d
  }

  /** `getTempImage()`: "<resolution label>/<export name>" inside the
      "plugin-images" folder of the plugin's temporary path. */
  function TempImage(pluginTemp: string, info: ImageInformation): (r: string)
    ensures StartsWith(r, ImagesDir(pluginTemp) + "/" + Label(info.targetResolution) + "/")
    ensures EndsWith(r, "/" + Text(info.exportName))
  {
    var d := ImagesDir(pluginTemp);
    var r := Paths.PathChild(d, Label(info.targetResolution) + "/" + Text(info.exportName));
    assert r == d + "/" + (Label(info.targetResolution) + "/" + Text(info.exportName));
    assert r == (d + "/" + Label(info.targetResolution) + "/") + Text(info.exportName);
    assert r == (d + "/" + Label(info.targetResolution)) + ("/" + Text(info.exportName));
    r
  }

  /** Records with different resolutions or export names never share a
      temporary file. */
  lemma TempImageInjective(pluginTemp: string, a: ImageInformation, b: ImageInformation)
    requires TempImage(pluginTemp, a) == TempImage(pluginTemp, b)
    ensures a.targetResolution == b.targetResolution && Text(a.exportName) == Text(b.exportName)
  {
    var d := ImagesDir(pluginTemp);
    var la, na := Label(a.targetResolution), Text(a.exportName);
    var lb, nb := Label(b.targetResolution), Text(b.exportName);
    assert TempImage(pluginTemp, a) == d + "/" + (la + "/" + na);
    assert TempImage(pluginTemp, b) == d + "/" + (lb + "/" + nb);
    DropCommonPrefix(d + "/", la + "/" + na, lb + "/" + nb);
    LabelHasNoSlash(a.targetResolution);
    LabelHasNoSlash(b.targetResolution);
    SegmentsEqual(la, na, lb, nb, '/');
    LabelIsLowerName(a.targetResolution);
  }
}

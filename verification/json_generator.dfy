/** The build-time generator that walks the bundled icon folders and writes
    the manifest of both icon packs (json_generator.py). */
module JsonGenerator {
  import opened Wrappers
  import opened Strings
  import opened Paths
  import opened Listing

  /** Assets folder, relative to the repository root. */
  const AssetsRoot := "src/main/resources/assets/"
  const AndroidIconsUrl := "http://www.androidicons.com/"
  const MaterialIconsUrl := "https://www.google.com/design/icons/"
  const AndroidIconsId := "android_icons"
  const MaterialIconsId := "material_icons"

  /** One manifest asset record. */
  datatype Asset = Asset(name: string, pack: string, category: string,
                         resolutions: seq<string>, colors: seq<string>, sizes: seq<string>)

  /** One manifest pack record. */
  datatype Pack = Pack(name: string, id: string, url: string, path: string,
                       categories: seq<string>, assets: seq<Asset>)

  // ---------------------------------------------------------------------------
  // Image normalisation

  /** A pixel as PIL reports it after `convert('RGBA')`. */
  datatype Pixel = Pixel(r: int, g: int, b: int, a: int)

  /** An image file: its PIL mode and its pixels seen as RGBA. */
  datatype ImageFile = ImageFile(mode: string, pixels: seq<Pixel>)

  const Transparent := Pixel(0, 0, 0, 0)

  predicate IsBlack(p: Pixel) {
    p.r == 0 && p.g == 0 && p.b == 0
  }

  /** `convert_image`: a 1-bit image is rewritten as RGBA in which every black
      pixel becomes fully transparent; any other image is left alone. */
  function ConvertImage(img: ImageFile): (r: ImageFile)
    ensures img.mode != "1" ==> r == img
    ensures img.mode == "1" ==> r.mode == "RGBA" && |r.pixels| == |img.pixels|
    ensures img.mode == "1" ==> forall i :: 0 <= i < |img.pixels| ==>
      (IsBlack(img.pixels[i]) ==> r.pixels[i] == Transparent) &&
      (!IsBlack(img.pixels[i]) ==> r.pixels[i] == img.pixels[i])
  {
    if img.mode == "1" then
      ImageFile("RGBA", seq(|img.pixels|, i requires 0 <= i < |img.pixels| =>
        if IsBlack(img.pixels[i]) then Transparent else img.pixels[i]))
    else img
  }

  /** Normalising an already normalised image changes nothing, so the
      generator can be rerun over the same folders. */
  lemma ConvertImageIdempotent(img: ImageFile)
    ensures ConvertImage(ConvertImage(img)) == ConvertImage(img)
    ensures forall p :: p in ConvertImage(img).pixels && img.mode == "1" ==> !IsBlack(p) || p.a == 0
  {
  }

  // ---------------------------------------------------------------------------
  // Listing helpers

  predicate IsDirNode(n: Node) {
    n.isDir
  }

  predicate IsPngEntry(n: Node) {
    EndsWith(n.name, ".png")
  }

  /** The sub-folders of a folder, in listing order. */
  function Dirs(n: Node): seq<Node> {
    FilterNodes(n.children, IsDirNode)
  }

  /** The names of a folder's entries ending in ".png" (directories too), in
      listing order. */
  function PngFiles(n: Node): (r: seq<string>)
    ensures forall s :: s in r <==> s in Names(n.children) && EndsWith(s, ".png")
    ensures forall k :: 0 <= k < |r| ==> EndsWith(r[k], ".png")
  {
    var kept := FilterNodes(n.children, IsPngEntry);
    forall s ensures s in Names(kept) <==> s in Names(n.children) && EndsWith(s, ".png") {
      if s in Names(kept) {
        var i :| 0 <= i < |kept| && Names(kept)[i] == s;
        assert kept[i] in kept && IsPngEntry(kept[i]);
        var j :| 0 <= j < |n.children| && n.children[j] == kept[i];
        assert Names(n.children)[j] == s;
      }
      if s in Names(n.children) && EndsWith(s, ".png") {
        var j :| 0 <= j < |n.children| && Names(n.children)[j] == s;
        assert IsPngEntry(n.children[j]);
        var i :| 0 <= i < |kept| && kept[i] == n.children[j];
        assert Names(kept)[i] == s;
      }
    }
    Names(kept)
  }

  /** `list_dirs_only`: the entries of `dir` that are directories, in
      listing order; OSError on anything but a directory. */
  function ListDirsOnly(dir: Node): (r: Result<seq<Node>>)
    ensures r.Ok? <==> dir.isDir
    ensures r.Err? ==> r.error == PyOSError
    ensures r.Ok? ==> r.value == Dirs(dir)
    ensures r.Ok? ==> forall n :: n in r.value <==> n in dir.children && n.isDir
  {
    var entries :- ListDir(dir);
    Ok(FilterNodes(entries, IsDirNode))
  }

  /** `list_images`: the entry names of `dir` ending in ".png", in listing
      order; OSError on anything but a directory. */
  function ListImages(dir: Node): (r: Result<seq<string>>)
    ensures r.Ok? <==> dir.isDir
    ensures r.Err? ==> r.error == PyOSError
    ensures r.Ok? ==> r.value == PngFiles(dir)
    ensures r.Ok? ==> forall s :: s in r.value <==> s in Names(dir.children) && EndsWith(s, ".png")
  {
    var entries :- ListDir(dir);
    Ok(PngFiles(dir))
  }

  /** `os.listdir(join(dir, name))`: a missing entry is an OSError too. */
  function ListChild(dir: Node, name: string): (r: Result<Node>)
    ensures r.Ok? ==> r.value in dir.children && r.value.name == name
    ensures r.Err? <==> forall c :: c in dir.children ==> c.name != name
    ensures r.Err? ==> r.error == PyOSError
  {
    match ChildNamed(dir, name)
    case None => Err(PyOSError)
    case Some(c) => Ok(c)
  }

  // ---------------------------------------------------------------------------
  // Android Icons

  /** `get_android_icons_file`: where the generator expects an Android Icons image. */
  function AndroidIconsFile(color: string, resolution: string, name: string): string {
    PathChild(PathChild(PathChild(AssetsRoot + AndroidIconsId, color), resolution), name + ".png")
  }

  function AndroidAssets(files: seq<string>, resolutions: seq<string>, colors: seq<string>): (r: seq<Asset>)
    ensures |r| == |files|
    ensures forall i :: 0 <= i < |files| ==>
      r[i] == Asset(SplitExtRoot(files[i]), AndroidIconsId, "all", resolutions, colors, ["18dp"])
  {
    seq(|files|, i requires 0 <= i < |files| =>
      Asset(SplitExtRoot(files[i]), AndroidIconsId, "all", resolutions, colors, ["18dp"]))
  }

  /** `handle_android_icons`: one asset per image of the first resolution
      folder of the first colour folder, in listing order; every asset lists
      all colour folders, all resolution folders of that first colour, and
      the single size "18dp". A pack without a colour folder, or whose first
      colour has no resolution folder, fails on `[0]`. */
  function HandleAndroidIcons(packRoot: Node): (r: Result<Pack>)
    ensures !packRoot.isDir ==> r == Err(PyOSError)
    ensures packRoot.isDir ==> (r.Err? <==> |Dirs(packRoot)| == 0 || |Dirs(Dirs(packRoot)[0])| == 0)
    ensures packRoot.isDir && r.Err? ==> r.error == PyIndexError
    ensures r.Ok? ==>
      var colors := Dirs(packRoot);
      var resolutions := Dirs(colors[0]);
      r.value == Pack("Android Icons", AndroidIconsId, AndroidIconsUrl, "android_icons/", ["all"],
                      AndroidAssets(PngFiles(resolutions[0]), Names(resolutions), Names(colors)))
    ensures r.Ok? ==> forall a :: a in r.value.assets ==>
      a.pack == AndroidIconsId && a.category in r.value.categories && a.sizes == ["18dp"] &&
      (forall c :: c in a.colors ==> c in Names(packRoot.children))
  {
    var colors :- ListDirsOnly(packRoot);
    if |colors| == 0 then Err(PyIndexError)
    else
      var resolutions := Dirs(colors[0]);
      if |resolutions| == 0 then Err(PyIndexError)
      else
        var files := PngFiles(resolutions[0]);
        DirNamesAreChildNames(packRoot);
        Ok(Pack("Android Icons", AndroidIconsId, AndroidIconsUrl, "android_icons/", ["all"],
                AndroidAssets(files, Names(resolutions), Names(colors))))
  }

  /** A sub-directory's name is the name of a child. */
  lemma DirNamesAreChildNames(n: Node)
    ensures forall c :: c in Names(Dirs(n)) ==> c in Names(n.children)
  {
    forall c | c in Names(Dirs(n)) ensures c in Names(n.children) {
      var dirs := Dirs(n);
      var i :| 0 <= i < |dirs| && Names(dirs)[i] == c;
      assert dirs[i] in n.children;
      var j :| 0 <= j < |n.children| && n.children[j] == dirs[i];
      assert Names(n.children)[j] == c;
    }
  }

  /** Every Android asset names an image that is really there:
      `get_android_icons_file` of the first colour, the first resolution and
      the asset's name is the path of the listed image it came from, for any
      image name that holds no '/' and does not start with a dot. */
  lemma AndroidAssetsNameTheirFiles(packRoot: Node, i: int)
    requires HandleAndroidIcons(packRoot).Ok?
    requires 0 <= i < |HandleAndroidIcons(packRoot).value.assets|
    requires var f := PngFiles(Dirs(Dirs(packRoot)[0])[0])[i]; '/' !in f && f[0] != '.'
    ensures
      var colors := Dirs(packRoot);
      var resolutions := Dirs(colors[0]);
      var f := PngFiles(resolutions[0])[i];
      var a := HandleAndroidIcons(packRoot).value.assets[i];
      && a.colors == Names(colors) && a.resolutions == Names(resolutions)
      && AndroidIconsFile(colors[0].name, resolutions[0].name, a.name)
         == PathChild(PathChild(PathChild(AssetsRoot + AndroidIconsId, colors[0].name), resolutions[0].name), f)
  {
    var resolutions := Dirs(Dirs(packRoot)[0]);
    var f := PngFiles(resolutions[0])[i];
    var stem := f[..|f| - 4];
    assert EndsWith(f, ".png");
    assert f == stem + ".png";
    assert stem[0] == f[0];
    SplitExtRootOfPng(stem, 0);
  }

  // ---------------------------------------------------------------------------
  // Material Icons: file names

  /** One parsed Material Icons file name. */
  datatype RawAsset = RawAsset(name: string, color: string, size: string)

  /** `extract_data`: the last '_' field is the size, the one before it the
      colour, the rest (re-joined with '_') the name. A name with fewer than
      two fields raises IndexError. */
  function ExtractData(fileName: string): (r: Result<RawAsset>)
    ensures r.Ok? <==> '_' in SplitExtRoot(fileName)
    ensures r.Err? ==> r.error == PyIndexError
    ensures r.Ok? ==> '_' !in r.value.color && '_' !in r.value.size
    ensures r.Ok? ==> r.value.name + "_" + r.value.color + "_" + r.value.size == SplitExtRoot(fileName)
                      || (r.value.name == "" && r.value.color + "_" + r.value.size == SplitExtRoot(fileName))
    // The size is the last field, the colour the one before, the name the rest re-joined.
    ensures r.Ok? ==>
      var parts := Split(SplitExtRoot(fileName), '_');
      r.value == RawAsset(Join(parts[..|parts| - 2], "_"), parts[|parts| - 2], parts[|parts| - 1])
  {
    var root := SplitExtRoot(fileName);
    var parts := Split(root, '_');
    SplitNoSeparatorIff(root);
    if |parts| < 2 then Err(PyIndexError)
    else
      LastTwoFields(root);
      Ok(RawAsset(Join(parts[..|parts| - 2], "_"), parts[|parts| - 2], parts[|parts| - 1]))
  }

  /** The fields of `s` before its last two, re-joined, followed by those two. */
  lemma LastTwoFields(s: string)
    requires |Split(s, '_')| >= 2
    ensures var parts := Split(s, '_');
            var front := parts[..|parts| - 2];
            var c := parts[|parts| - 2];
            var z := parts[|parts| - 1];
      if |front| == 0 then c + "_" + z == s else Join(front, "_") + "_" + c + "_" + z == s
  {
    var parts := Split(s, '_');
    var front := parts[..|parts| - 2];
    assert parts == front + [parts[|parts| - 2]] + [parts[|parts| - 1]];
    JoinSnoc(front, parts[|parts| - 2], parts[|parts| - 1]);
  }

  lemma SplitNoSeparatorIff(s: string)
    ensures |Split(s, '_')| < 2 <==> '_' !in s
  {
    if '_' !in s {
      SplitNoSeparator(s, '_');
    } else {
      var i :| 0 <= i < |s| && s[i] == '_';
      assert s == s[..i] + ['_'] + s[i + 1..];
      SplitAppend(s[..i], '_', s[i + 1..]);
    }
  }

  /** Joining with two more fields appends them after separators. */
  lemma JoinSnoc(front: seq<string>, c: string, s: string)
    ensures Join(front + [c] + [s], "_")
         == if |front| == 0 then c + "_" + s else Join(front, "_") + "_" + c + "_" + s
  {
    if |front| == 0 {
      assert front + [c] + [s] == [c] + [s];
      JoinSnoc1([c], s, "_");
    } else {
      JoinSnoc1(front, c, "_");
      JoinSnoc1(front + [c], s, "_");
    }
  }

  /** `"_".join([name, color, size]) + ".png"`: the file name the generator expects. */
  function MaterialFileName(name: string, color: string, size: string): string {
    Join([name, color, size], "_") + ".png"
  }

  /** `get_material_icons_file`: where the generator expects a Material Icons image. */
  function MaterialIconsFile(category: string, color: string, size: string, resolution: string, name: string): string {
    PathChild(PathChild(PathChild(AssetsRoot + MaterialIconsId, category), "drawable-" + resolution),
              MaterialFileName(name, color, size))
  }

  lemma SplitThree(name: string, color: string, size: string)
    requires '_' !in color && '_' !in size
    ensures Split(name + "_" + color + "_" + size, '_') == Split(name, '_') + [color] + [size]
  {
    assert name + "_" + color + "_" + size == (name + ['_'] + color) + ['_'] + size;
    SplitAppend(name + ['_'] + color, '_', size);
    SplitAppend(name, '_', color);
    SplitNoSeparator(color, '_');
    SplitNoSeparator(size, '_');
  }

  lemma RootOfMaterialFileName(name: string, color: string, size: string)
    requires '/' !in name && '/' !in color && '/' !in size
    ensures SplitExtRoot(MaterialFileName(name, color, size)) == name + "_" + color + "_" + size
  {
    var root := name + "_" + color + "_" + size;
    assert [name, color, size] == [name] + ([color] + [size]);
    JoinCons(name, [color] + [size], "_");
    JoinCons(color, [size], "_");
    assert Join([name, color, size], "_") == root;
    assert root[|name|] == '_';
    assert forall k :: 0 <= k < |root| ==> root[k] != '/' by {
      forall k | 0 <= k < |root| ensures root[k] != '/' {
        if k < |name| {
          assert root[k] == name[k];
        } else if |name| < k <= |name| + |color| {
          assert root[k] == color[k - |name| - 1];
        } else if |name| + |color| + 1 < k {
          assert root[k] == size[k - |name| - |color| - 2];
        }
      }
    }
    SplitExtRootOfPng(root, |name|);
  }

  /** The '_'-fields of "<name>_<color>_<size>": the name's fields, then the
      colour, then the size. */
  lemma FieldsOfThree(name: string, color: string, size: string)
    requires '_' !in color && '_' !in size
    ensures var parts := Split(name + "_" + color + "_" + size, '_');
      && |parts| >= 2 && parts[|parts| - 2] == color && parts[|parts| - 1] == size
      && Join(parts[..|parts| - 2], "_") == name
  {
    var p := Split(name, '_');
    SplitThree(name, color, size);
    SnocTwo(p, color, size);
  }

  lemma SnocTwo(p: seq<string>, x: string, y: string)
    ensures var q := p + [x] + [y];
      |q| == |p| + 2 && q[|q| - 2] == x && q[|q| - 1] == y && q[..|q| - 2] == p
  {
  }

  /** Parsing a file name the generator would build gives back name, colour and
      size, whenever colour and size hold no '_' and nothing holds a '/'. */
  lemma ExtractDataOfFileName(name: string, color: string, size: string)
    requires '_' !in color && '_' !in size
    requires '/' !in name && '/' !in color && '/' !in size
    ensures ExtractData(MaterialFileName(name, color, size)) == Ok(RawAsset(name, color, size))
  {
    var root := name + "_" + color + "_" + size;
    RootOfMaterialFileName(name, color, size);
    assert '_' in root by {
      assert root[|name|] == '_';
    }
    FieldsOfThree(name, color, size);
  }

  // ---------------------------------------------------------------------------
  // Material Icons: grouping consecutive files into assets

  function Colors(run: seq<RawAsset>): (r: seq<string>)
    ensures |r| == |run| && forall k :: 0 <= k < |run| ==> r[k] == run[k].color
  {
    seq(|run|, k requires 0 <= k < |run| => run[k].color)
  }

  function Sizes(run: seq<RawAsset>): (r: seq<string>)
    ensures |r| == |run| && forall k :: 0 <= k < |run| ==> r[k] == run[k].size
  {
    seq(|run|, k requires 0 <= k < |run| => run[k].size)
  }

  function MaterialAsset(name: string, category: string, resolutions: seq<string>,
                         colors: seq<string>, sizes: seq<string>): Asset
  {
    Asset(name, MaterialIconsId, category, resolutions, SortedSet(colors), SortedSet(sizes))
  }

  /** The loop of `handle_material_icons` over consecutive pairs
      `(raw[i], raw[i + 1])`: colours and sizes accumulate, and an asset is
      emitted (and the accumulators reset) whenever the name changes. */
  function Scan(raw: seq<RawAsset>, category: string, resolutions: seq<string>,
                i: nat, colors: seq<string>, sizes: seq<string>, acc: seq<Asset>): (r: seq<Asset>)
    ensures |acc| <= |r| && r[..|acc|] == acc
    ensures |r| <= |acc| + (if i + 1 < |raw| then |raw| - 1 - i else 0)
    decreases |raw| - i
  {
    if i + 1 >= |raw| then acc
    else
      var colors' := colors + [raw[i].color];
      var sizes' := sizes + [raw[i].size];
      if raw[i].name != raw[i + 1].name then
        Scan(raw, category, resolutions, i + 1, [], [],
             acc + [MaterialAsset(raw[i].name, category, resolutions, colors', sizes')])
      else
        Scan(raw, category, resolutions, i + 1, colors', sizes', acc)
  }

  /** The assets one category folder yields: at most one per pair of
      neighbouring files, so none for a folder of fewer than two files. */
  function GroupAssets(raw: seq<RawAsset>, category: string, resolutions: seq<string>): (r: seq<Asset>)
    ensures |raw| <= 1 ==> r == []
    ensures |raw| > 0 ==> |r| < |raw|
  {
    Scan(raw, category, resolutions, 0, [], [], [])
  }

  predicate SameName(run: seq<RawAsset>) {
    forall k :: 0 <= k < |run| ==> run[k].name == run[0].name
  }

  function Flatten(runs: seq<seq<RawAsset>>): seq<RawAsset> {
    if |runs| == 0 then [] else runs[0] + Flatten(runs[1..])
  }

  /** The maximal runs of consecutive entries sharing a name: a reference
      decomposition independent of the pairwise loop (see `RunsAreMaximal`). */
  function Runs(raw: seq<RawAsset>): (runs: seq<seq<RawAsset>>)
    ensures |runs| == 0 <==> |raw| == 0
    ensures forall j :: 0 <= j < |runs| ==> |runs[j]| > 0
    ensures |runs| > 0 ==> runs[0][0] == raw[0]
  {
    if |raw| == 0 then []
    else
      var rest := Runs(raw[1..]);
      if |rest| > 0 && rest[0][0].name == raw[0].name then
        [[raw[0]] + rest[0]] + rest[1..]
      else
        [[raw[0]]] + rest
  }

  /** `Runs` cuts `raw` into non-empty pieces that each share one name, with
      neighbouring pieces named differently, and that concatenate back to `raw`. */
  lemma {:induction false} RunsAreMaximal(raw: seq<RawAsset>)
    ensures var runs := Runs(raw);
      Flatten(runs) == raw &&
      (forall j :: 0 <= j < |runs| ==> SameName(runs[j])) &&
      (forall j :: 0 <= j < |runs| - 1 ==> runs[j][0].name != runs[j + 1][0].name)
  {
    if |raw| > 0 {
      RunsAreMaximal(raw[1..]);
      var rest: seq<seq<RawAsset>> := Runs(raw[1..]);
      var runs: seq<seq<RawAsset>> := Runs(raw);
      assert raw == [raw[0]] + raw[1..];
      if |rest| > 0 && rest[0][0].name == raw[0].name {
        assert Flatten(rest) == rest[0] + Flatten(rest[1..]);
        assert runs[1..] == rest[1..];
        assert Flatten(runs) == runs[0] + Flatten(runs[1..]);
      } else {
        assert runs[1..] == rest;
      }
    }
  }

  /** What the pairwise loop emits for a list of runs: one asset per run
      named after it, with its sorted distinct colours and sizes, except for
      the last run, which no pair closes. */
  function AssetsOfRuns(runs: seq<seq<RawAsset>>, category: string, resolutions: seq<string>): (r: seq<Asset>)
    requires forall j :: 0 <= j < |runs| ==> |runs[j]| > 0
    ensures |runs| > 0 ==> |r| == |runs| - 1
    ensures |runs| == 0 ==> r == []
  {
    if |runs| <= 1 then []
    else [MaterialAsset(runs[0][0].name, category, resolutions, Colors(runs[0]), Sizes(runs[0]))]
         + AssetsOfRuns(runs[1..], category, resolutions)
  }

  /** How the runs of `raw[i..]` arise from those of `raw[i + 1..]`. */
  lemma RunsStep(raw: seq<RawAsset>, i: nat)
    requires i + 1 < |raw|
    ensures var next := Runs(raw[i + 1..]);
      |next| > 0 && next[0][0] == raw[i + 1] &&
      Runs(raw[i..]) == if raw[i].name != raw[i + 1].name then [[raw[i]]] + next
                        else [[raw[i]] + next[0]] + next[1..]
  {
    assert raw[i..][1..] == raw[i + 1..];
    assert raw[i..][0] == raw[i];
  }

  lemma AssetsOfRunsCons(run: seq<RawAsset>, runs: seq<seq<RawAsset>>, category: string, resolutions: seq<string>)
    requires |run| > 0 && |runs| > 0
    requires forall j :: 0 <= j < |runs| ==> |runs[j]| > 0
    ensures AssetsOfRuns([run] + runs, category, resolutions)
         == [MaterialAsset(run[0].name, category, resolutions, Colors(run), Sizes(run))]
            + AssetsOfRuns(runs, category, resolutions)
  {
    assert ([run] + runs)[1..] == runs;
  }

  /** The loop from pair `i` on, carrying the part `cur` of the current run
      already seen, emits the assets of the remaining runs with `cur` glued to
      the front of the first. */
  predicate ScanMatches(raw: seq<RawAsset>, category: string, resolutions: seq<string>,
                        i: nat, cur: seq<RawAsset>, acc: seq<Asset>)
    requires i < |raw|
  {
    var runs := Runs(raw[i..]);
    Scan(raw, category, resolutions, i, Colors(cur), Sizes(cur), acc)
      == acc + AssetsOfRuns([cur + runs[0]] + runs[1..], category, resolutions)
  }

  lemma ScanLastPair(raw: seq<RawAsset>, category: string, resolutions: seq<string>,
                     i: nat, cur: seq<RawAsset>, acc: seq<Asset>)
    requires i + 1 == |raw|
    ensures ScanMatches(raw, category, resolutions, i, cur, acc)
  {
    assert raw[i..] == [raw[i]];
  }

  /** One step of the loop at a name change. */
  lemma ScanStepBoundary(raw: seq<RawAsset>, category: string, resolutions: seq<string>,
                         i: nat, cur: seq<RawAsset>, acc: seq<Asset>)
    requires i + 1 < |raw| && raw[i].name != raw[i + 1].name
    ensures Scan(raw, category, resolutions, i, Colors(cur), Sizes(cur), acc)
         == Scan(raw, category, resolutions, i + 1, Colors([]), Sizes([]),
                 acc + [MaterialAsset(raw[i].name, category, resolutions, Colors(cur + [raw[i]]), Sizes(cur + [raw[i]]))])
  {
    assert Colors(cur + [raw[i]]) == Colors(cur) + [raw[i].color];
    assert Sizes(cur + [raw[i]]) == Sizes(cur) + [raw[i].size];
    assert Colors([]) == [] && Sizes([]) == [];
  }

  /** At a name change the reference emits the finished run, then the rest. */
  lemma RunsSideBoundary(raw: seq<RawAsset>, category: string, resolutions: seq<string>,
                         i: nat, cur: seq<RawAsset>)
    requires i + 1 < |raw| && raw[i].name != raw[i + 1].name
    requires forall k :: 0 <= k < |cur| ==> cur[k].name == raw[i].name
    ensures var runs := Runs(raw[i..]);
            var next := Runs(raw[i + 1..]);
      AssetsOfRuns([cur + runs[0]] + runs[1..], category, resolutions)
        == [MaterialAsset(raw[i].name, category, resolutions, Colors(cur + [raw[i]]), Sizes(cur + [raw[i]]))]
           + AssetsOfRuns([[] + next[0]] + next[1..], category, resolutions)
  {
    RunsStep(raw, i);
    var runs := Runs(raw[i..]);
    var next := Runs(raw[i + 1..]);
    var cur' := cur + [raw[i]];
    assert [[] + next[0]] + next[1..] == next by {
      assert [] + next[0] == next[0];
    }
    assert [cur + runs[0]] + runs[1..] == [cur'] + next;
    assert cur'[0].name == raw[i].name;
    AssetsOfRunsCons(cur', next, category, resolutions);
  }

  lemma ScanBoundary(raw: seq<RawAsset>, category: string, resolutions: seq<string>,
                     i: nat, cur: seq<RawAsset>, acc: seq<Asset>)
    requires i + 1 < |raw| && raw[i].name != raw[i + 1].name
    requires forall k :: 0 <= k < |cur| ==> cur[k].name == raw[i].name
    requires ScanMatches(raw, category, resolutions, i + 1, [],
      acc + [MaterialAsset(raw[i].name, category, resolutions, Colors(cur + [raw[i]]), Sizes(cur + [raw[i]]))])
    ensures ScanMatches(raw, category, resolutions, i, cur, acc)
  {
    var a := MaterialAsset(raw[i].name, category, resolutions, Colors(cur + [raw[i]]), Sizes(cur + [raw[i]]));
    var next := Runs(raw[i + 1..]);
    var tail := AssetsOfRuns([[] + next[0]] + next[1..], category, resolutions);
    ScanStepBoundary(raw, category, resolutions, i, cur, acc);
    RunsSideBoundary(raw, category, resolutions, i, cur);
    AppendAssoc(acc, [a], tail);
  }

  /** One step of the loop inside a run. */
  lemma ScanStepSame(raw: seq<RawAsset>, category: string, resolutions: seq<string>,
                     i: nat, cur: seq<RawAsset>, acc: seq<Asset>)
    requires i + 1 < |raw| && raw[i].name == raw[i + 1].name
    ensures Scan(raw, category, resolutions, i, Colors(cur), Sizes(cur), acc)
         == Scan(raw, category, resolutions, i + 1, Colors(cur + [raw[i]]), Sizes(cur + [raw[i]]), acc)
  {
    assert Colors(cur + [raw[i]]) == Colors(cur) + [raw[i].color];
    assert Sizes(cur + [raw[i]]) == Sizes(cur) + [raw[i].size];
  }

  lemma ScanSameName(raw: seq<RawAsset>, category: string, resolutions: seq<string>,
                     i: nat, cur: seq<RawAsset>, acc: seq<Asset>)
    requires i + 1 < |raw| && raw[i].name == raw[i + 1].name
    requires ScanMatches(raw, category, resolutions, i + 1, cur + [raw[i]], acc)
    ensures ScanMatches(raw, category, resolutions, i, cur, acc)
  {
    ScanStepSame(raw, category, resolutions, i, cur, acc);
    RunsStep(raw, i);
    var runs := Runs(raw[i..]);
    var next := Runs(raw[i + 1..]);
    var cur' := cur + [raw[i]];
    assert runs[0] == [raw[i]] + next[0];
    assert cur' + next[0] == cur + runs[0] by {
      AppendAssoc(cur, [raw[i]], next[0]);
    }
    assert [cur' + next[0]] + next[1..] == [cur + runs[0]] + runs[1..];
  }

  lemma {:induction false} ScanEmitsRuns(raw: seq<RawAsset>, category: string, resolutions: seq<string>,
                                         i: nat, cur: seq<RawAsset>, acc: seq<Asset>)
    requires i < |raw|
    requires forall k :: 0 <= k < |cur| ==> cur[k].name == raw[i].name
    ensures ScanMatches(raw, category, resolutions, i, cur, acc)
    decreases |raw| - i
  {
    if i + 1 == |raw| {
      ScanLastPair(raw, category, resolutions, i, cur, acc);
    } else if raw[i].name != raw[i + 1].name {
      var cur' := cur + [raw[i]];
      ScanEmitsRuns(raw, category, resolutions, i + 1, [],
        acc + [MaterialAsset(raw[i].name, category, resolutions, Colors(cur'), Sizes(cur'))]);
      ScanBoundary(raw, category, resolutions, i, cur, acc);
    } else {
      ScanEmitsRuns(raw, category, resolutions, i + 1, cur + [raw[i]], acc);
      ScanSameName(raw, category, resolutions, i, cur, acc);
    }
  }

  /** The generator's grouping equals the reference: every maximal run of
      equally named files but the last becomes one asset. */
  lemma GroupAssetsIsRuns(raw: seq<RawAsset>, category: string, resolutions: seq<string>)
    ensures GroupAssets(raw, category, resolutions) == AssetsOfRuns(Runs(raw), category, resolutions)
  {
    if |raw| > 0 {
      ScanEmitsRuns(raw, category, resolutions, 0, [], []);
      assert ScanMatches(raw, category, resolutions, 0, [], []);
      var runs := Runs(raw);
      assert raw[0..] == raw;
      assert [] + runs[0] == runs[0];
      assert [[] + runs[0]] + runs[1..] == runs;
    }
  }

  /** A listing with k runs of names yields k - 1 assets: the last run is dropped. */
  lemma GroupAssetsCount(raw: seq<RawAsset>, category: string, resolutions: seq<string>)
    requires |raw| > 0
    ensures |GroupAssets(raw, category, resolutions)| == |Runs(raw)| - 1
  {
    GroupAssetsIsRuns(raw, category, resolutions);
  }

  /** A folder whose files all share one name yields no asset at all. */
  lemma OneNameYieldsNothing(raw: seq<RawAsset>, category: string, resolutions: seq<string>)
    requires |raw| > 0 && SameName(raw)
    ensures GroupAssets(raw, category, resolutions) == []
  {
    GroupAssetsIsRuns(raw, category, resolutions);
    RunsAreMaximal(raw);
    FlattenHeads(Runs(raw));
  }

  /** The heads of the runs appear in the flattened list, after the first run. */
  lemma {:induction false} FlattenHeads(runs: seq<seq<RawAsset>>)
    requires forall j :: 0 <= j < |runs| ==> |runs[j]| > 0
    ensures forall j :: 0 <= j < |runs| ==> runs[j][0] in Flatten(runs)
  {
    if |runs| > 0 {
      FlattenHeads(runs[1..]);
      forall j | 0 < j < |runs| ensures runs[j][0] in Flatten(runs) {
        assert runs[1..][j - 1] == runs[j];
      }
    }
  }

  /** A concrete listing: two icons, one file each. The loop emits the first
      and loses the second. */
  lemma LastIconDropped()
    ensures
      var raw := [RawAsset("ic_add", "black", "24dp"), RawAsset("ic_alarm", "black", "24dp")];
      && GroupAssets(raw, "action", ["mdpi"]) == [MaterialAsset("ic_add", "action", ["mdpi"], ["black"], ["24dp"])]
      && |Runs(raw)| == 2
  {
    var raw := [RawAsset("ic_add", "black", "24dp"), RawAsset("ic_alarm", "black", "24dp")];
    assert raw[1..] == [raw[1]];
    assert raw[1..][1..] == [];
    GroupAssetsIsRuns(raw, "action", ["mdpi"]);
    assert Runs(raw) == [[raw[0]], [raw[1]]];
    assert Colors([raw[0]]) == ["black"] && Sizes([raw[0]]) == ["24dp"];
  }

  /** The reference for what the generator evidently means to emit: one
      asset per maximal run of equally named files, the last run included. */
  function AllRunAssets(runs: seq<seq<RawAsset>>, category: string, resolutions: seq<string>): (r: seq<Asset>)
    requires forall j :: 0 <= j < |runs| ==> |runs[j]| > 0
    ensures |r| == |runs|
    ensures forall j :: 0 <= j < |runs| ==>
      r[j] == MaterialAsset(runs[j][0].name, category, resolutions, Colors(runs[j]), Sizes(runs[j]))
  {
    seq(|runs|, j requires 0 <= j < |runs| =>
      MaterialAsset(runs[j][0].name, category, resolutions, Colors(runs[j]), Sizes(runs[j])))
  }

  /** An extra entry named unlike the last one, appended to the listing so
      that the pairwise loop closes the last run as well. */
  function Sentinel(raw: seq<RawAsset>): (x: RawAsset)
    requires |raw| > 0
    ensures x.name != raw[|raw| - 1].name
  {
    RawAsset(raw[|raw| - 1].name + "_", "", "")
  }

  /** An entry named unlike the last one starts a run of its own. */
  lemma {:induction false} RunsSnoc(raw: seq<RawAsset>, x: RawAsset)
    requires |raw| > 0 && x.name != raw[|raw| - 1].name
    ensures Runs(raw + [x]) == Runs(raw) + [[x]]
    decreases |raw|
  {
    assert (raw + [x])[1..] == raw[1..] + [x];
    if |raw| == 1 {
      assert raw[1..] + [x] == [x];
      assert [x][1..] == [];
    } else {
      RunsSnoc(raw[1..], x);
    }
  }

  /** The reference peels off its first run like `AssetsOfRuns` does. */
  lemma AllRunAssetsCons(runs: seq<seq<RawAsset>>, category: string, resolutions: seq<string>)
    requires |runs| > 0
    requires forall j :: 0 <= j < |runs| ==> |runs[j]| > 0
    ensures AllRunAssets(runs, category, resolutions)
         == [MaterialAsset(runs[0][0].name, category, resolutions, Colors(runs[0]), Sizes(runs[0]))]
            + AllRunAssets(runs[1..], category, resolutions)
  {
    var r := AllRunAssets(runs, category, resolutions);
    var t := AllRunAssets(runs[1..], category, resolutions);
    forall j | 1 <= j < |runs| ensures r[j] == t[j - 1] {
      assert runs[1..][j - 1] == runs[j];
    }
  }

  /** Closing one more run at the end makes the loop's output the reference's. */
  lemma {:induction false} AssetsOfRunsSnoc(runs: seq<seq<RawAsset>>, last: seq<RawAsset>,
                                            category: string, resolutions: seq<string>)
    requires |runs| > 0 && |last| > 0
    requires forall j :: 0 <= j < |runs| ==> |runs[j]| > 0
    ensures AssetsOfRuns(runs + [last], category, resolutions) == AllRunAssets(runs, category, resolutions)
    decreases |runs|
  {
    var rest := runs[1..] + [last];
    assert runs + [last] == [runs[0]] + rest;
    AssetsOfRunsCons(runs[0], rest, category, resolutions);
    AllRunAssetsCons(runs, category, resolutions);
    if |runs| == 1 {
      assert rest == [last];
      assert AllRunAssets(runs[1..], category, resolutions) == [];
    } else {
      AssetsOfRunsSnoc(runs[1..], last, category, resolutions);
    }
  }

  /** The grouping with the last run emitted too: the same pairwise loop
      over the listing followed by one extra entry named unlike its last. */
  function GroupAllAssets(raw: seq<RawAsset>, category: string, resolutions: seq<string>): (r: seq<Asset>)
    ensures r == AllRunAssets(Runs(raw), category, resolutions)
    ensures |r| == |Runs(raw)|
  {
    if |raw| == 0 then []
    else
      var padded := raw + [Sentinel(raw)];
      RunsSnoc(raw, Sentinel(raw));
      GroupAssetsIsRuns(padded, category, resolutions);
      AssetsOfRunsSnoc(Runs(raw), [Sentinel(raw)], category, resolutions);
      GroupAssets(padded, category, resolutions)
  }

  // ---------------------------------------------------------------------------
  // Material Icons: folders

  /** `[s.split('-')[1] for s in dirs]`: IndexError when a name has no '-'. */
  function DensityLabels(dirs: seq<Node>): (r: Result<seq<string>>)
    ensures r.Ok? <==> forall i :: 0 <= i < |dirs| ==> |Split(dirs[i].name, '-')| >= 2
    ensures r.Err? ==> r.error == PyIndexError
    ensures r.Ok? ==> |r.value| == |dirs|
    ensures r.Ok? ==> forall i :: 0 <= i < |dirs| ==>
      |Split(dirs[i].name, '-')| >= 2 && r.value[i] == Split(dirs[i].name, '-')[1]
  {
    if |dirs| == 0 then Ok([])
    else
      var parts := Split(dirs[0].name, '-');
      assert forall i :: 1 <= i < |dirs| ==> dirs[i] == dirs[1..][i - 1];
      if |parts| < 2 then Err(PyIndexError)
      else
        var rest :- DensityLabels(dirs[1..]);
        Ok([parts[1]] + rest)
  }

  /** `[extract_data(f) for f in files]`: the first name with fewer than two
      fields raises. */
  function ExtractAll(files: seq<string>): (r: Result<seq<RawAsset>>)
    ensures r.Ok? <==> forall i :: 0 <= i < |files| ==> ExtractData(files[i]).Ok?
    ensures r.Err? ==> r.error == PyIndexError
    ensures r.Ok? ==> |r.value| == |files|
    ensures r.Ok? ==> forall i :: 0 <= i < |files| ==> ExtractData(files[i]) == Ok(r.value[i])
  {
    CollectAll(ExtractData, files)
  }

  /** What the category loop of `handle_material_icons` reads from one
      category folder before grouping: the density label of each sub-folder,
      in listing order, and the parsed images of the folder
      "drawable-<first label>". A category without sub-folders fails on
      `resolutions[0]`; a missing or non-folder "drawable-<label>" fails in
      `os.listdir`. */
  function CategoryInput(category: Node): (r: Result<(seq<string>, seq<RawAsset>)>)
    ensures !category.isDir ==> r == Err(PyOSError)
    ensures category.isDir && Dirs(category) == [] ==> r == Err(PyIndexError)
    ensures r.Ok? ==> DensityLabels(Dirs(category)) == Ok(r.value.0) && |r.value.0| > 0
    ensures r.Ok? ==>
      var folder := ChildNamed(category, "drawable-" + r.value.0[0]);
      folder.Some? && folder.value.isDir && ExtractAll(PngFiles(folder.value)) == Ok(r.value.1)
    ensures category.isDir && DensityLabels(Dirs(category)).Ok? && |Dirs(category)| > 0 ==>
      var folder := ChildNamed(category, "drawable-" + DensityLabels(Dirs(category)).value[0]);
      (folder.Some? && folder.value.isDir && ExtractAll(PngFiles(folder.value)).Ok? ==> r.Ok?)
  {
    var dirs :- ListDirsOnly(category);
    var resolutions :- DensityLabels(dirs);
    if |resolutions| == 0 then Err(PyIndexError)
    else
      var folder :- ListChild(category, "drawable-" + resolutions[0]);
      var files :- ListImages(folder);
      var raw :- ExtractAll(files);
      Ok((resolutions, raw))
  }

  /** One iteration of the category loop of `handle_material_icons`, as the
      script writes it: the pairwise loop emits one asset per maximal run of
      equally named images except the last run. */
  function MaterialCategory(category: Node): (r: Result<seq<Asset>>)
    ensures r.Ok? <==> CategoryInput(category).Ok?
    ensures r.Err? ==> r.error == CategoryInput(category).error
    ensures r.Ok? ==>
      var input := CategoryInput(category).value;
      r.value == AssetsOfRuns(Runs(input.1), category.name, input.0)
    ensures r.Ok? ==> forall a :: a in r.value ==>
      a.pack == MaterialIconsId && a.category == category.name &&
      StrictlySorted(a.colors) && StrictlySorted(a.sizes) && |a.colors| > 0 && |a.sizes| > 0
  {
    var input :- CategoryInput(category);
    var runs := Runs(input.1);
    GroupAssetsIsRuns(input.1, category.name, input.0);
    var assets := GroupAssets(input.1, category.name, input.0);
    if |runs| == 0 then Ok(assets)
    else
      AssetsOfRunsAllButLast(runs, category.name, input.0);
      RunAssetsShape(runs[..|runs| - 1], category.name, input.0);
      Ok(assets)
  }

  /** One iteration of the category loop with the last icon emitted as well
      (`GroupAllAssets`): one asset per maximal run. */
  function MaterialCategoryCorrected(category: Node): (r: Result<seq<Asset>>)
    ensures r.Ok? <==> CategoryInput(category).Ok?
    ensures r.Err? ==> r.error == CategoryInput(category).error
    ensures r.Ok? ==>
      var input := CategoryInput(category).value;
      r.value == AllRunAssets(Runs(input.1), category.name, input.0)
    ensures r.Ok? ==> forall a :: a in r.value ==>
      a.pack == MaterialIconsId && a.category == category.name &&
      StrictlySorted(a.colors) && StrictlySorted(a.sizes) && |a.colors| > 0 && |a.sizes| > 0
  {
    var input :- CategoryInput(category);
    var assets := GroupAllAssets(input.1, category.name, input.0);
    RunAssetsShape(Runs(input.1), category.name, input.0);
    Ok(assets)
  }

  /** The pairwise loop's output is the reference's for every run but the last. */
  lemma AssetsOfRunsAllButLast(runs: seq<seq<RawAsset>>, category: string, resolutions: seq<string>)
    requires |runs| > 0
    requires forall j :: 0 <= j < |runs| ==> |runs[j]| > 0
    ensures AssetsOfRuns(runs, category, resolutions) == AllRunAssets(runs[..|runs| - 1], category, resolutions)
  {
    var front := runs[..|runs| - 1];
    if |runs| == 1 {
      assert AllRunAssets(front, category, resolutions) == [];
    } else {
      assert runs == front + [runs[|runs| - 1]];
      AssetsOfRunsSnoc(front, runs[|runs| - 1], category, resolutions);
    }
  }

  /** The reference over all runs is the reference over all but the last,
      followed by the last run's asset. */
  lemma AllRunAssetsSnoc(runs: seq<seq<RawAsset>>, category: string, resolutions: seq<string>)
    requires |runs| > 0
    requires forall j :: 0 <= j < |runs| ==> |runs[j]| > 0
    ensures var last := runs[|runs| - 1];
      AllRunAssets(runs, category, resolutions)
        == AllRunAssets(runs[..|runs| - 1], category, resolutions)
           + [MaterialAsset(last[0].name, category, resolutions, Colors(last), Sizes(last))]
  {
  }

  /** The correction only adds the asset of the folder's last run of names:
      both versions fail alike, and where they succeed the script's output is
      the corrected output without its last element. */
  lemma CorrectedAddsLastRun(category: Node)
    ensures MaterialCategory(category).Ok? <==> MaterialCategoryCorrected(category).Ok?
    ensures MaterialCategory(category).Ok? ==>
      var input := CategoryInput(category).value;
      var runs := Runs(input.1);
      (input.1 == [] ==> MaterialCategoryCorrected(category).value == MaterialCategory(category).value == [])
      && (input.1 != [] ==>
            var last := runs[|runs| - 1];
            MaterialCategoryCorrected(category).value
              == MaterialCategory(category).value
                 + [MaterialAsset(last[0].name, category.name, input.0, Colors(last), Sizes(last))])
  {
    if MaterialCategory(category).Ok? {
      var input := CategoryInput(category).value;
      var runs := Runs(input.1);
      if input.1 != [] {
        AssetsOfRunsAllButLast(runs, category.name, input.0);
        AllRunAssetsSnoc(runs, category.name, input.0);
      }
    }
  }

  /** Every asset of a list of runs has sorted, duplicate-free, non-empty
      colour and size lists. */
  lemma RunAssetsShape(runs: seq<seq<RawAsset>>, category: string, resolutions: seq<string>)
    requires forall j :: 0 <= j < |runs| ==> |runs[j]| > 0
    ensures forall a :: a in AllRunAssets(runs, category, resolutions) ==>
      a.pack == MaterialIconsId && a.category == category &&
      StrictlySorted(a.colors) && StrictlySorted(a.sizes) && |a.colors| > 0 && |a.sizes| > 0
  {
    var assets := AllRunAssets(runs, category, resolutions);
    forall a | a in assets
      ensures a.pack == MaterialIconsId && a.category == category &&
              StrictlySorted(a.colors) && StrictlySorted(a.sizes) && |a.colors| > 0 && |a.sizes| > 0
    {
      var j :| 0 <= j < |assets| && assets[j] == a;
      RunAssetShape(runs[j], category, resolutions);
    }
  }

  /** The asset of one non-empty run has sorted, duplicate-free, non-empty
      colour and size lists. */
  lemma RunAssetShape(run: seq<RawAsset>, category: string, resolutions: seq<string>)
    requires |run| > 0
    ensures var a := MaterialAsset(run[0].name, category, resolutions, Colors(run), Sizes(run));
      a.pack == MaterialIconsId && a.category == category &&
      StrictlySorted(a.colors) && StrictlySorted(a.sizes) && |a.colors| > 0 && |a.sizes| > 0
  {
    var c := Colors(run);
    var s := Sizes(run);
    SortedSetSpec(c);
    SortedSetSpec(s);
    assert c[0] in Elems(c) && s[0] in Elems(s);
    ElemsEmpty(SortedSet(c));
    ElemsEmpty(SortedSet(s));
  }

  /** The assets of all category folders, folder by folder in listing order;
      the first failing folder's error stops the loop. */
  function MaterialAssets(categories: seq<Node>): (r: Result<seq<Asset>>)
    ensures r.Ok? <==> forall i :: 0 <= i < |categories| ==> MaterialCategory(categories[i]).Ok?
    ensures r.Ok? ==> r.value == Concat(CollectAll(MaterialCategory, categories).value)
    ensures r.Ok? ==> forall a :: a in r.value ==>
      a.pack == MaterialIconsId && a.category in Names(categories) &&
      StrictlySorted(a.colors) && StrictlySorted(a.sizes) && |a.colors| > 0 && |a.sizes| > 0
  {
    var each :- CollectAll(MaterialCategory, categories);
    var within := (a: Asset) => MaterialShaped(a) && a.category in Names(categories);
    forall i, a | 0 <= i < |each| && a in each[i] ensures within(a) {
      assert Names(categories)[i] == categories[i].name;
    }
    ConcatAll(each, within);
    Ok(Concat(each))
  }

  /** The shape every Material asset has. */
  predicate MaterialShaped(a: Asset) {
    a.pack == MaterialIconsId && StrictlySorted(a.colors) && StrictlySorted(a.sizes) && |a.colors| > 0 && |a.sizes| > 0
  }

  /** `handle_material_icons`: the category folders, in listing order, become
      the pack's categories, and their assets follow one another. */
  function HandleMaterialIcons(packRoot: Node): (r: Result<Pack>)
    ensures !packRoot.isDir ==> r == Err(PyOSError)
    ensures packRoot.isDir ==> (r.Ok? <==> MaterialAssets(Dirs(packRoot)).Ok?)
    ensures r.Ok? ==>
      r.value == Pack("Material Icons", MaterialIconsId, MaterialIconsUrl, "material_icons/",
                      Names(Dirs(packRoot)), MaterialAssets(Dirs(packRoot)).value)
    ensures r.Ok? ==> forall c :: c in r.value.categories <==> c in Names(packRoot.children) && exists n :: n in packRoot.children && n.name == c && n.isDir
    ensures r.Ok? ==> forall a :: a in r.value.assets ==>
      a.pack == MaterialIconsId && a.category in r.value.categories &&
      StrictlySorted(a.colors) && StrictlySorted(a.sizes) && |a.colors| > 0 && |a.sizes| > 0
  {
    var categories :- ListDirsOnly(packRoot);
    var assets :- MaterialAssets(categories);
    DirNames(packRoot, categories);
    Ok(Pack("Material Icons", MaterialIconsId, MaterialIconsUrl, "material_icons/", Names(categories), assets))
  }

  /** The names of the sub-folders of a folder are the names of its
      entries that belong to a directory. */
  lemma DirNames(root: Node, dirs: seq<Node>)
    requires forall n :: n in dirs <==> n in root.children && n.isDir
    ensures forall c :: c in Names(dirs) <==> c in Names(root.children) && exists n :: n in root.children && n.name == c && n.isDir
  {
    forall c ensures c in Names(dirs) <==> c in Names(root.children) && exists n :: n in root.children && n.name == c && n.isDir {
      if c in Names(dirs) {
        var i :| 0 <= i < |dirs| && Names(dirs)[i] == c;
        var j :| 0 <= j < |root.children| && root.children[j] == dirs[i];
        assert Names(root.children)[j] == c;
      }
      if exists n :: n in root.children && n.name == c && n.isDir {
        var n :| n in root.children && n.name == c && n.isDir;
        var i :| 0 <= i < |dirs| && dirs[i] == n;
        assert Names(dirs)[i] == c;
      }
    }
  }

  /** The manifest: both packs, Android Icons first; the Android pack's
      error comes first when both fail. */
  function Manifest(androidRoot: Node, materialRoot: Node): (r: Result<seq<Pack>>)
    ensures r.Ok? <==> HandleAndroidIcons(androidRoot).Ok? && HandleMaterialIcons(materialRoot).Ok?
    ensures HandleAndroidIcons(androidRoot).Err? ==> r == Err(HandleAndroidIcons(androidRoot).error)
    ensures r.Ok? ==> r.value == [HandleAndroidIcons(androidRoot).value, HandleMaterialIcons(materialRoot).value]
    ensures r.Ok? ==> r.value[0].id == AndroidIconsId && r.value[1].id == MaterialIconsId
  {
    var android :- HandleAndroidIcons(androidRoot);
    var material :- HandleMaterialIcons(materialRoot);
    Ok([android, material])
  }

  // ---------------------------------------------------------------------------
  // convert_images: which files get normalised

  /** The images of one sub-folder, as paths `<folder>/<sub>/<image>`, in
      listing order. */
  function SubfolderImages(folder: string, sub: Node): (r: seq<string>)
    ensures |r| == |PngFiles(sub)|
    ensures forall k :: 0 <= k < |r| ==> r[k] == PathChild(PathChild(folder, sub.name), PngFiles(sub)[k])
    ensures forall k :: 0 <= k < |r| ==> EndsWith(r[k], ".png")
  {
    var images := PngFiles(sub);
    var here := seq(|images|, k requires 0 <= k < |images| => PathChild(PathChild(folder, sub.name), images[k]));
    forall k | 0 <= k < |images| ensures EndsWith(here[k], ".png") {
      PngChild(PathChild(folder, sub.name), images[k]);
    }
    here
  }

  /** A ".png" entry's path ends in ".png". */
  lemma PngChild(dir: string, img: string)
    requires EndsWith(img, ".png")
    ensures EndsWith(PathChild(dir, img), ".png")
  {
    EndsWithTrans(PathChild(dir, img), "/" + img, img);
    EndsWithTrans(PathChild(dir, img), img, ".png");
  }

  /** The images under one folder, sub-folder by sub-folder. */
  function FolderImages(folder: Node): (r: seq<string>)
    ensures forall p :: p in r ==> EndsWith(p, ".png")
  {
    var subs := Dirs(folder);
    var each := seq(|subs|, j requires 0 <= j < |subs| => SubfolderImages(folder.name, subs[j]));
    ConcatAll(each, IsPngPath);
    Concat(each)
  }

  predicate IsPngPath(p: string) {
    EndsWith(p, ".png")
  }

  /** The relative paths `<folder>/<subfolder>/<image>` that `convert_images`
      hands to `convert_image` inside one pack folder, in visiting order:
      folder by folder, sub-folder by sub-folder, image by image. */
  function ImagesToConvert(packRoot: Node): (r: Result<seq<string>>)
    ensures r.Ok? <==> packRoot.isDir
    ensures r.Err? ==> r.error == PyOSError
    ensures r.Ok? ==>
      var folders := Dirs(packRoot);
      r.value == Concat(seq(|folders|, i requires 0 <= i < |folders| => FolderImages(folders[i])))
    ensures r.Ok? ==> forall p :: p in r.value ==> EndsWith(p, ".png")
  {
    // The folders come from `list_dirs_only`, so listing each of them again
    // cannot fail.
    var folders :- ListDirsOnly(packRoot);
    var each := seq(|folders|, i requires 0 <= i < |folders| => FolderImages(folders[i]));
    ConcatAll(each, IsPngPath);
    Ok(Concat(each))
  }

  /** Every image of every sub-folder of every folder of the pack is
      converted. */
  lemma ImagesToConvertComplete(packRoot: Node, i: int, j: int, k: int)
    requires packRoot.isDir
    requires 0 <= i < |Dirs(packRoot)|
    requires 0 <= j < |Dirs(Dirs(packRoot)[i])|
    requires 0 <= k < |PngFiles(Dirs(Dirs(packRoot)[i])[j])|
    ensures
      var f := Dirs(packRoot)[i];
      var s := Dirs(f)[j];
      PathChild(PathChild(f.name, s.name), PngFiles(s)[k]) in ImagesToConvert(packRoot).value
  {
    var folders := Dirs(packRoot);
    var f := folders[i];
    var subs := Dirs(f);
    var s := subs[j];
    var p := PathChild(PathChild(f.name, s.name), PngFiles(s)[k]);
    var inner := seq(|subs|, j requires 0 <= j < |subs| => SubfolderImages(f.name, subs[j]));
    assert p in inner[j];
    ConcatMember(inner, j, p);
    var outer := seq(|folders|, i requires 0 <= i < |folders| => FolderImages(folders[i]));
    assert p in outer[i];
    ConcatMember(outer, i, p);
  }
}

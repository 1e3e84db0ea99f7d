/** The icon importer's selection state machine
    (controllers/iconimporter/IconsImporterController.java of the current
    plugin generation): the selected asset with its colour and size, the
    export name and folder, the densities to export, and the export task.
    The two pack controllers are fixed parameters; an asset names its pack by
    id. Setters return the new state and whether observers were notified. */
module IconsImporter {
  import opened Wrappers
  import opened Strings
  import opened Densities
  import ScaleFactors
  import Info = ImageInfo
  import Icons

  /** The two pack controllers the importer is built with. */
  datatype Controllers = Controllers(android: Icons.IconPack, material: Icons.MaterialIcons)

  /** Which of the two controllers serves a pack. */
  datatype Pack = AndroidPack | MaterialPack

  datatype State = State(
    selectedAsset: Icons.Asset,
    selectedSize: string,
    selectedColor: string,
    exportName: Option<string>,
    exportRoot: Option<string>,
    exportResolutions: set<Resolution>)

  datatype Changed = Changed(state: State, notified: bool)

  /** The selection invariant: the colour and size are among the asset's. */
  predicate Consistent(s: State) {
    s.selectedColor in s.selectedAsset.colors && s.selectedSize in s.selectedAsset.sizes
  }

  function IdOf(c: Controllers, p: Pack): string {
    match p
    case AndroidPack => c.android.id
    case MaterialPack => c.material.pack.id
  }

  /** `getControllerForIconPackId(id)`: the Android controller when its id
      matches, else the Material one, else IllegalArgumentException. */
  function ControllerFor(c: Controllers, id: string): (r: Result<Pack>)
    ensures r.Ok? <==> id == c.android.id || id == c.material.pack.id
    ensures r.Ok? ==> IdOf(c, r.value) == id
    ensures r.Ok? && id == c.android.id ==> r.value == AndroidPack
    ensures r.Err? ==> r.error == IllegalArgument
  {
    if c.android.id == id then Ok(AndroidPack)
    else if c.material.pack.id == id then Ok(MaterialPack)
    else Err(IllegalArgument)
  }

  /** `getCategories()` of a controller. */
  function CategoriesOf(c: Controllers, p: Pack): seq<string> {
    match p
    case AndroidPack => c.android.categories
    case MaterialPack => c.material.pack.categories
  }

  /** `getAssets(category)` of a controller: every Android asset, or the
      Material category's list (null for an unknown category). */
  function AssetsOf(c: Controllers, p: Pack, category: string): (r: Option<seq<Icons.Asset>>)
    ensures p.AndroidPack? ==> r == Some(c.android.assets)
    ensures p.MaterialPack? ==> r == Icons.AssetsOf(c.material.index, category)
  {
    match p
    case AndroidPack => Some(Icons.AndroidAssets(c.android, category))
    case MaterialPack => Icons.AssetsOf(c.material.index, category)
  }

  /** `getAssets(getCategories().get(0)).get(0)`: the first asset of the
      first category. */
  function FirstAsset(c: Controllers, p: Pack): (r: Result<Icons.Asset>)
    ensures r.Ok? <==>
      && CategoriesOf(c, p) != []
      && AssetsOf(c, p, CategoriesOf(c, p)[0]).Some?
      && AssetsOf(c, p, CategoriesOf(c, p)[0]).value != []
    ensures r.Ok? ==> r.value == AssetsOf(c, p, CategoriesOf(c, p)[0]).value[0]
    ensures r.Err? ==> r.error == NullPointer || r.error == IndexOutOfBounds
  {
    var categories := CategoriesOf(c, p);
    if categories == [] then Err(IndexOutOfBounds)
    else
      var assets := AssetsOf(c, p, categories[0]);
      if assets.None? then Err(NullPointer)
      else if assets.value == [] then Err(IndexOutOfBounds)
      else Ok(assets.value[0])
  }

  /** The constructor: the first Android asset in its first size and colour,
      no custom export name and no density to export. */
  function New(c: Controllers): (r: Result<State>)
    ensures r.Ok? <==>
      FirstAsset(c, AndroidPack).Ok? && FirstAsset(c, AndroidPack).value.sizes != [] && FirstAsset(c, AndroidPack).value.colors != []
    ensures r.Ok? ==> Consistent(r.value)
    ensures r.Ok? ==> r.value.selectedAsset == FirstAsset(c, AndroidPack).value
    ensures r.Ok? ==> r.value.exportName.None? && r.value.exportRoot.None? && r.value.exportResolutions == {}
  {
    var a :- FirstAsset(c, AndroidPack);
    if a.sizes == [] || a.colors == [] then Err(IndexOutOfBounds)
    else Ok(State(a, a.sizes[0], a.colors[0], None, None, {}))
  }

  /** `updateColorAndSize()`: a colour or size the asset does not offer is
      replaced by the asset's first one. */
  function UpdateColorAndSize(s: State): (r: Result<State>)
    ensures r.Ok? <==> (s.selectedColor in s.selectedAsset.colors || s.selectedAsset.colors != []) &&
                       (s.selectedSize in s.selectedAsset.sizes || s.selectedAsset.sizes != [])
    ensures r.Err? ==> r.error == IndexOutOfBounds
    ensures r.Ok? ==> Consistent(r.value)
    ensures r.Ok? ==> r.value.(selectedColor := s.selectedColor, selectedSize := s.selectedSize) == s
    ensures r.Ok? && s.selectedColor in s.selectedAsset.colors ==> r.value.selectedColor == s.selectedColor
    ensures r.Ok? && s.selectedSize in s.selectedAsset.sizes ==> r.value.selectedSize == s.selectedSize
  {
    var colors := s.selectedAsset.colors;
    var sizes := s.selectedAsset.sizes;
    if s.selectedColor !in colors && colors == [] then Err(IndexOutOfBounds)
    else
      var color := if s.selectedColor in colors then s.selectedColor else colors[0];
      if s.selectedSize !in sizes && sizes == [] then Err(IndexOutOfBounds)
      else
        var size := if s.selectedSize in sizes then s.selectedSize else sizes[0];
        Ok(s.(selectedColor := color, selectedSize := size))
  }

  /** `setSelectedIconPack(id)`: the current pack changes nothing; another
      pack selects its first asset, which must exist. */
  function SetSelectedIconPack(c: Controllers, s: State, id: string): (r: Result<Changed>)
    ensures s.selectedAsset.pack == id ==> r == Ok(Changed(s, false))
    ensures s.selectedAsset.pack != id && ControllerFor(c, id).Err? ==> r == Err(IllegalArgument)
    ensures r.Ok? && s.selectedAsset.pack != id ==>
      && r.value.notified && Consistent(r.value.state)
      && ControllerFor(c, id).Ok? && FirstAsset(c, ControllerFor(c, id).value).Ok?
      && r.value.state.selectedAsset == FirstAsset(c, ControllerFor(c, id).value).value
      && r.value.state.exportName == s.exportName && r.value.state.exportRoot == s.exportRoot
      && r.value.state.exportResolutions == s.exportResolutions
  {
    if s.selectedAsset.pack == id then Ok(Changed(s, false))
    else
      var p :- ControllerFor(c, id);
      var a :- FirstAsset(c, p);
      var s' :- UpdateColorAndSize(s.(selectedAsset := a));
      Ok(Changed(s', true))
  }

  /** `setSelectedCategory(category)`: the current category changes nothing;
      another one selects its first asset, always looked up in the Material
      controller whatever the current pack is. */
  function SetSelectedCategory(c: Controllers, s: State, category: string): (r: Result<Changed>)
    ensures s.selectedAsset.category == category ==> r == Ok(Changed(s, false))
    ensures s.selectedAsset.category != category && category !in c.material.index ==> r == Err(NullPointer)
    ensures r.Ok? && s.selectedAsset.category != category ==>
      && category in c.material.index && c.material.index[category] != []
      && r.value.notified && Consistent(r.value.state)
      && r.value.state.selectedAsset == c.material.index[category][0]
  {
    if s.selectedAsset.category == category then Ok(Changed(s, false))
    else
      var assets := Icons.AssetsOf(c.material.index, category);
      if assets.None? then Err(NullPointer)
      else if assets.value == [] then Err(IndexOutOfBounds)
      else
        var s' :- UpdateColorAndSize(s.(selectedAsset := assets.value[0]));
        Ok(Changed(s', true))
  }

  /** `setSelectedAsset(asset)`: always notifies, even for the same asset. */
  function SetSelectedAsset(s: State, a: Icons.Asset): (r: Result<Changed>)
    ensures r.Ok? <==> (s.selectedColor in a.colors || a.colors != []) && (s.selectedSize in a.sizes || a.sizes != [])
    ensures r.Ok? ==> r.value.notified && r.value.state.selectedAsset == a && Consistent(r.value.state)
    ensures r.Ok? && s.selectedColor in a.colors ==> r.value.state.selectedColor == s.selectedColor
  {
    var s' :- UpdateColorAndSize(s.(selectedAsset := a));
    Ok(Changed(s', true))
  }

  /** `setSelectedSize(size)`: an offered size is taken, any other one falls
      back to the asset's first size. */
  function SetSelectedSize(s: State, size: string): (r: Result<Changed>)
    ensures r.Err? <==> size !in s.selectedAsset.sizes && s.selectedAsset.sizes == []
    ensures r.Ok? ==> r.value.state == s.(selectedSize := r.value.state.selectedSize)
    ensures r.Ok? && size in s.selectedAsset.sizes ==> r.value.state.selectedSize == size
    ensures r.Ok? && size !in s.selectedAsset.sizes ==> r.value.state.selectedSize == s.selectedAsset.sizes[0]
    ensures r.Ok? ==> (r.value.notified <==> !(s.selectedSize == size && size in s.selectedAsset.sizes))
    ensures r.Ok? && s.selectedColor in s.selectedAsset.colors ==> Consistent(r.value.state)
  {
    var sizes := s.selectedAsset.sizes;
    if s.selectedSize == size && size in sizes then Ok(Changed(s, false))
    else if size in sizes then Ok(Changed(s.(selectedSize := size), true))
    else if sizes == [] then Err(IndexOutOfBounds)
    else Ok(Changed(s.(selectedSize := sizes[0]), true))
  }

  /** `setSelectedColor(color)` as the source writes it: the colour is stored
      as given, and a colour the asset does not offer overwrites the selected
      SIZE with the asset's first colour. */
  function SetSelectedColorAsWritten(s: State, color: string): (r: Result<Changed>)
    ensures r.Err? <==> color !in s.selectedAsset.colors && s.selectedAsset.colors == []
    ensures r.Ok? && !(s.selectedColor == color && color in s.selectedAsset.colors) ==>
      r.value.state.selectedColor == color && r.value.notified
    ensures r.Ok? && color !in s.selectedAsset.colors ==> r.value.state.selectedSize == s.selectedAsset.colors[0]
  {
    var colors := s.selectedAsset.colors;
    if s.selectedColor == color && color in colors then Ok(Changed(s, false))
    else if color in colors then Ok(Changed(s.(selectedColor := color), true))
    else if colors == [] then Err(IndexOutOfBounds)
    else Ok(Changed(s.(selectedColor := color, selectedSize := colors[0]), true))
  }

  /** An asset offered in black and white at 24dp: choosing "red" leaves the
      unknown colour selected and a colour name in place of the size, so the
      selection invariant breaks. */
  lemma AsWrittenColorBreaksSelection()
    ensures
      var a := Icons.Asset("wifi", "material_icons", "device", [MDPI], ["black", "white"], ["24dp"]);
      var s := State(a, "24dp", "black", None, None, {});
      && Consistent(s)
      && SetSelectedColorAsWritten(s, "red") == Ok(Changed(s.(selectedColor := "red", selectedSize := "black"), true))
      && !Consistent(SetSelectedColorAsWritten(s, "red").value.state)
  {
    var a := Icons.Asset("wifi", "material_icons", "device", [MDPI], ["black", "white"], ["24dp"]);
    assert "red" != "black" && "red" != "white";
    assert "red" !in a.colors;
    assert "black" != "24dp";
    assert "black" !in a.sizes;
  }

  /** `setSelectedColor(color)` as evidently intended, the mirror image of
      `setSelectedSize`: an offered colour is taken, any other one falls back
      to the asset's first colour, and the size is left alone. */
  function SetSelectedColor(s: State, color: string): (r: Result<Changed>)
    ensures r.Err? <==> color !in s.selectedAsset.colors && s.selectedAsset.colors == []
    ensures r.Ok? ==> r.value.state == s.(selectedColor := r.value.state.selectedColor)
    ensures r.Ok? && color in s.selectedAsset.colors ==> r.value.state.selectedColor == color
    ensures r.Ok? && color !in s.selectedAsset.colors ==> r.value.state.selectedColor == s.selectedAsset.colors[0]
    ensures r.Ok? ==> (r.value.notified <==> !(s.selectedColor == color && color in s.selectedAsset.colors))
  {
    var colors := s.selectedAsset.colors;
    if s.selectedColor == color && color in colors then Ok(Changed(s, false))
    else if color in colors then Ok(Changed(s.(selectedColor := color), true))
    else if colors == [] then Err(IndexOutOfBounds)
    else Ok(Changed(s.(selectedColor := colors[0]), true))
  }

  /** From a consistent selection, every colour or size choice keeps the
      selection consistent and cannot fail. */
  lemma ChoicesKeepSelection(s: State, color: string, size: string)
    requires Consistent(s)
    ensures SetSelectedColor(s, color).Ok? && Consistent(SetSelectedColor(s, color).value.state)
    ensures SetSelectedSize(s, size).Ok? && Consistent(SetSelectedSize(s, size).value.state)
  {
  }

  /** `setExportName(name)`: the asset's own name clears the custom name; an
      unchanged value does not notify; a null name fails on `equals`. */
  function SetExportName(s: State, name: Option<string>): (r: Result<Changed>)
    ensures r.Err? <==> name.None?
    ensures r.Err? ==> r.error == NullPointer
    ensures r.Ok? && name.value == s.selectedAsset.name ==> r.value.state == s.(exportName := None)
    ensures r.Ok? && name.value != s.selectedAsset.name ==> r.value.state == s.(exportName := name)
    ensures r.Ok? ==> (r.value.notified <==> r.value.state.exportName != s.exportName)
  {
    if name.None? then Err(NullPointer)
    else
      var n := if name.value == s.selectedAsset.name then None else name;
      if n == s.exportName then Ok(Changed(s, false)) else Ok(Changed(s.(exportName := n), true))
  }

  /** `getExportName()`: the custom name, or the asset's name when none is set. */
  function GetExportName(s: State): (n: string)
    ensures s.exportName.Some? ==> n == s.exportName.value
    ensures s.exportName.None? ==> n == s.selectedAsset.name
  {
    if s.exportName.Some? then s.exportName.value else s.selectedAsset.name
  }

  /** Whatever name is set, including the asset's own, is the name read back,
      and setting it again changes nothing. */
  lemma ExportNameRoundTrip(s: State, name: string)
    ensures SetExportName(s, Some(name)).Ok?
    ensures GetExportName(SetExportName(s, Some(name)).value.state) == name
    ensures SetExportName(SetExportName(s, Some(name)).value.state, Some(name))
         == Ok(Changed(SetExportName(s, Some(name)).value.state, false))
  {
  }

  /** `setExportRoot(root)`: an unchanged root does not notify; a null root
      fails on `equals`. */
  function SetExportRoot(s: State, root: Option<string>): (r: Result<Changed>)
    ensures r.Err? <==> root.None?
    ensures r.Ok? ==> r.value.state == s.(exportRoot := root)
    ensures r.Ok? ==> (r.value.notified <==> s.exportRoot != root)
  {
    if root.None? then Err(NullPointer)
    else if root == s.exportRoot then Ok(Changed(s, false))
    else Ok(Changed(s.(exportRoot := root), true))
  }

  /** `setExportResolution(resolution, export)`: adds or removes one density,
      without notifying. */
  function SetExportResolution(s: State, r: Resolution, exported: bool): (t: State)
    ensures r in t.exportResolutions <==> exported
    ensures forall q :: q != r ==> (q in t.exportResolutions <==> q in s.exportResolutions)
    ensures t.(exportResolutions := s.exportResolutions) == s
  {
    if r in s.exportResolutions && !exported then s.(exportResolutions := s.exportResolutions - {r})
    else if r !in s.exportResolutions && exported then s.(exportResolutions := s.exportResolutions + {r})
    else s
  }

  /** Marking a density twice is the same as once, and marking it back
      restores the set when it was in that state before. */
  lemma ExportResolutionIdempotent(s: State, r: Resolution, exported: bool)
    ensures SetExportResolution(SetExportResolution(s, r, exported), r, exported) == SetExportResolution(s, r, exported)
    ensures SetExportResolution(SetExportResolution(s, r, !exported), r, exported) == SetExportResolution(s, r, exported)
    ensures (r in s.exportResolutions <==> exported) ==> SetExportResolution(s, r, exported) == s
  {
  }

  /** `getImageFile(asset, color, size, resolution)` of a controller. */
  function ImageFileOf(c: Controllers, p: Pack, a: Icons.Asset, color: string, size: string, r: Resolution): (f: string)
    ensures p.AndroidPack? ==> f == Icons.AndroidImageFile(c.android, a, color, Some(size), r)
    ensures p.MaterialPack? ==> f == Icons.MaterialImageFile(c.material, a, color, size, Icons.Raster(r))
  {
    match p
    case AndroidPack => Icons.AndroidImageFile(c.android, a, color, Some(size), r)
    case MaterialPack => Icons.MaterialImageFile(c.material, a, color, size, Icons.Raster(r))
  }

  /** Both packs serve PNG files, the Android one named after the asset. */
  lemma ImageFileIsPng(c: Controllers, p: Pack, a: Icons.Asset, color: string, size: string, r: Resolution)
    ensures EndsWith(ImageFileOf(c, p, a, color, size, r), ".png")
    ensures p.AndroidPack? ==> EndsWith(ImageFileOf(c, p, a, color, size, r), "/" + a.name + ".png")
  {
    var f := ImageFileOf(c, p, a, color, size, r);
    if p.AndroidPack? {
      var t := "/" + color + "/" + Name(r) + "/" + a.name + ".png";
      assert t == ("/" + color + "/" + Name(r)) + ("/" + a.name + ".png");
      EndsWithTrans(f, t, "/" + a.name + ".png");
      EndsWithTrans(f, "/" + a.name + ".png", ".png");
    }
  }

  /** `getSelectedImageFile(resolution)`: the selected asset's file in the
      selected colour and size, from the controller of its pack. */
  function GetSelectedImageFile(c: Controllers, s: State, r: Resolution): (f: Result<string>)
    ensures f.Ok? <==> ControllerFor(c, s.selectedAsset.pack).Ok?
    ensures f.Err? ==> f.error == IllegalArgument
    ensures f.Ok? ==> f.value == ImageFileOf(c, ControllerFor(c, s.selectedAsset.pack).value, s.selectedAsset,
                                              s.selectedColor, s.selectedSize, r)
  {
    var p :- ControllerFor(c, s.selectedAsset.pack);
    Ok(ImageFileOf(c, p, s.selectedAsset, s.selectedColor, s.selectedSize, r))
  }

  /** `getSelectedImageFile()`: the XHDPI file. */
  function GetSelectedImageFileDefault(c: Controllers, s: State): (f: Result<string>)
    ensures f == GetSelectedImageFile(c, s, XHDPI)
  {
    GetSelectedImageFile(c, s, XHDPI)
  }

  /** `getThumbnailFile(asset)`: the black file at the pack's thumbnail
      density (LDPI for Android, MDPI for Material) through the controllers'
      three-argument `getImageFile` (no size for Android, 24dp for Material). */
  function GetThumbnailFile(c: Controllers, a: Icons.Asset): (f: Result<string>)
    ensures f.Err? <==> ControllerFor(c, a.pack).Err?
    ensures f.Ok? && ControllerFor(c, a.pack).value.AndroidPack? ==>
      f.value == Icons.AndroidImageFileDefault(c.android, a, "black", Icons.AndroidThumbnail)
    ensures f.Ok? && ControllerFor(c, a.pack).value.MaterialPack? ==>
      f.value == Icons.MaterialImageFileDefault(c.material, a, "black", Icons.Raster(Icons.MaterialThumbnail))
  {
    var p :- ControllerFor(c, a.pack);
    match p
    case AndroidPack => Ok(Icons.AndroidImageFileDefault(c.android, a, "black", Icons.AndroidThumbnail))
    case MaterialPack => Ok(Icons.MaterialImageFileDefault(c.material, a, "black", Icons.Raster(Icons.MaterialThumbnail)))
  }

  /** `getCategories()` and `getAssets()`: the selected pack's categories and
      the selected asset's category list. */
  function GetCategories(c: Controllers, s: State): (r: Result<seq<string>>)
    ensures r.Ok? <==> ControllerFor(c, s.selectedAsset.pack).Ok?
    ensures r.Ok? ==> r.value == CategoriesOf(c, ControllerFor(c, s.selectedAsset.pack).value)
  {
    var p :- ControllerFor(c, s.selectedAsset.pack);
    Ok(CategoriesOf(c, p))
  }

  function GetAssets(c: Controllers, s: State): (r: Result<Option<seq<Icons.Asset>>>)
    ensures r.Ok? <==> ControllerFor(c, s.selectedAsset.pack).Ok?
    ensures r.Ok? ==> r.value == AssetsOf(c, ControllerFor(c, s.selectedAsset.pack).value, s.selectedAsset.category)
  {
    var p :- ControllerFor(c, s.selectedAsset.pack);
    Ok(AssetsOf(c, p, s.selectedAsset.category))
  }

  // ---- Export task -----------------------------------------------------------------

  /** The density a missing density is scaled from, by pack id: XXHDPI for
      "android_icons", MDPI for "material_icons", none for any other id. */
  function FallbackSource(id: string): (r: Option<Resolution>)
    ensures id == "android_icons" ==> r == Some(XXHDPI)
    ensures id == "material_icons" ==> r == Some(MDPI)
    ensures r.Some? <==> id == "android_icons" || id == "material_icons"
  {
    if id == "android_icons" then Some(XXHDPI)
    else if id == "material_icons" then Some(MDPI)
    else None
  }

  /** The record every task entry starts from: a fresh builder given the
      export name and folder. */
  function TaskBase(s: State): (b: Info.Builder)
    ensures Info.ApplyAll(Info.NewBuilder(), [Info.SetExportName(Some(GetExportName(s))), Info.SetExportPath(s.exportRoot)]) == Ok(b)
    ensures b.exportName == Some(GetExportName(s)) && b.exportPath == s.exportRoot
  {
    var b1 := Info.NewBuilder().(exportName := Some(GetExportName(s)));
    var b := b1.(exportPath := s.exportRoot);
    Info.ApplyFirst(b1, Info.SetExportPath(s.exportRoot), [], b);
    Info.ApplyFirst(Info.NewBuilder(), Info.SetExportName(Some(GetExportName(s))), [Info.SetExportPath(s.exportRoot)] + [], b);
    assert [Info.SetExportName(Some(GetExportName(s)))] + ([Info.SetExportPath(s.exportRoot)] + [])
        == [Info.SetExportName(Some(GetExportName(s))), Info.SetExportPath(s.exportRoot)];
    b
  }

  /** The task entry for one density: the asset's own file when it has that
      density, otherwise the fallback density's file with the scale factor
      from it. */
  function TaskEntry(c: Controllers, s: State, r: Resolution): (e: Result<Info.ImageInformation>)
    ensures e.Err? <==>
      ControllerFor(c, s.selectedAsset.pack).Err? || (r !in s.selectedAsset.resolutions && FallbackSource(s.selectedAsset.pack).None?)
    ensures e.Err? && ControllerFor(c, s.selectedAsset.pack).Err? ==> e.error == IllegalArgument
    ensures e.Err? && ControllerFor(c, s.selectedAsset.pack).Ok? ==> e.error == IllegalState
    ensures e.Ok? ==>
      && e.value.targetResolution == r
      && e.value.exportName == Some(GetExportName(s)) && e.value.exportPath == s.exportRoot
      && e.value == TaskBase(s).(targetResolution := r, factor := e.value.factor, imageFile := e.value.imageFile)
    ensures e.Ok? && r in s.selectedAsset.resolutions ==>
      e.value.imageFile == Some(GetSelectedImageFile(c, s, r).value) && e.value.factor == 1.0
    ensures e.Ok? && r !in s.selectedAsset.resolutions ==>
      var src := FallbackSource(s.selectedAsset.pack).value;
      && e.value.imageFile == Some(GetSelectedImageFile(c, s, src).value)
      && e.value.factor == ScaleFactors.ScaleFactor(r, src)
  {
    var base := TaskBase(s).(targetResolution := r);
    var p :- ControllerFor(c, s.selectedAsset.pack);
    if r in s.selectedAsset.resolutions then
      Ok(base.(imageFile := Some(ImageFileOf(c, p, s.selectedAsset, s.selectedColor, s.selectedSize, r))))
    else
      var src := FallbackSource(s.selectedAsset.pack);
      if src.None? then Err(IllegalState)
      else
        var f := ImageFileOf(c, p, s.selectedAsset, s.selectedColor, s.selectedSize, src.value);
        Ok(base.(factor := ScaleFactors.ScaleFactor(r, src.value), imageFile := Some(f)))
  }

  /** The task's loop body for every density of a list. */
  function TaskEntries(c: Controllers, s: State, rs: seq<Resolution>): (r: Result<seq<Info.ImageInformation>>)
    ensures r.Ok? <==> forall i :: 0 <= i < |rs| ==> TaskEntry(c, s, rs[i]).Ok?
    ensures r.Ok? ==> |r.value| == |rs| && forall i :: 0 <= i < |rs| ==> r.value[i] == TaskEntry(c, s, rs[i]).value
  {
    CollectAll(q => TaskEntry(c, s, q), rs)
  }

  /** `getTask(project)`: one entry per density to export, in the set's
      iteration order (modelled as declaration order). */
  function GetTask(c: Controllers, s: State): (r: Result<seq<Info.ImageInformation>>)
    ensures s.exportResolutions == {} ==> r == Ok([])
    ensures r.Ok? <==> forall q :: q in s.exportResolutions ==> TaskEntry(c, s, q).Ok?
    ensures r.Ok? ==> |r.value| == |s.exportResolutions|
    ensures r.Ok? ==> forall i :: 0 <= i < |r.value| ==>
      r.value[i].targetResolution in s.exportResolutions && r.value[i] == TaskEntry(c, s, r.value[i].targetResolution).value
    ensures r.Ok? ==> forall q :: q in s.exportResolutions ==> TaskEntry(c, s, q).value in r.value
  {
    var rs := Enumerate(s.exportResolutions);
    EnumerateSize(s.exportResolutions);
    assert s.exportResolutions == {} ==> rs == [];
    EntriesCover(c, s, rs);
    TaskEntries(c, s, rs)
  }

  /** Every density of the list has its entry among the entries. */
  lemma EntriesCover(c: Controllers, s: State, rs: seq<Resolution>)
    ensures TaskEntries(c, s, rs).Ok? ==> forall q :: q in rs ==> TaskEntry(c, s, q).value in TaskEntries(c, s, rs).value
  {
    var t := TaskEntries(c, s, rs);
    if t.Ok? {
      forall q | q in rs ensures TaskEntry(c, s, q).value in t.value {
        var i :| 0 <= i < |rs| && rs[i] == q;
        assert t.value[i] == TaskEntry(c, s, q).value;
      }
    }
  }

  /** The task names every density exactly once. */
  lemma TaskOnePerDensity(c: Controllers, s: State)
    requires GetTask(c, s).Ok?
    ensures forall i, j :: 0 <= i < j < |GetTask(c, s).value| ==>
      GetTask(c, s).value[i].targetResolution != GetTask(c, s).value[j].targetResolution
    ensures forall q :: q in s.exportResolutions <==>
      exists i :: 0 <= i < |GetTask(c, s).value| && GetTask(c, s).value[i].targetResolution == q
  {
    var t := GetTask(c, s).value;
    var rs := Enumerate(s.exportResolutions);
    assert forall i :: 0 <= i < |t| ==> t[i] == TaskEntry(c, s, rs[i]).value;
    assert forall i :: 0 <= i < |t| ==> t[i].targetResolution == rs[i];
  }

  /** An entry scaled from a fallback density is scaled by the ratio of the
      two densities, so it comes out at the target's size. */
  lemma TaskEntryScalesByDensity(c: Controllers, s: State, r: Resolution)
    requires TaskEntry(c, s, r).Ok? && r !in s.selectedAsset.resolutions
    ensures TaskEntry(c, s, r).value.factor * ScaleFactors.DensityOf(FallbackSource(s.selectedAsset.pack).value)
         == ScaleFactors.DensityOf(r)
  {
    var src := FallbackSource(s.selectedAsset.pack).value;
    assert ScaleFactors.DensityOf(src) > 0.0;
  }

  /** A task fails on a pack no controller serves as soon as there is a
      density to export, and on an unknown pack id only when the asset lacks
      one of the densities. */
  lemma TaskFailures(c: Controllers, s: State)
    ensures ControllerFor(c, s.selectedAsset.pack).Err? && s.exportResolutions != {} ==> GetTask(c, s).Err?
    ensures ControllerFor(c, s.selectedAsset.pack).Ok? && s.exportResolutions <= Elems(s.selectedAsset.resolutions) ==>
      GetTask(c, s).Ok?
    ensures ControllerFor(c, s.selectedAsset.pack).Ok? && FallbackSource(s.selectedAsset.pack).None? ==>
      (GetTask(c, s).Ok? <==> s.exportResolutions <= Elems(s.selectedAsset.resolutions))
  {
    if s.exportResolutions != {} {
      var q :| q in s.exportResolutions;
      assert q in s.exportResolutions;
    }
  }
}

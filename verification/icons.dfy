/** Icon packs of the current plugin generation and the controllers that
    serve their files: the pack record (model/IconPack.java), the category
    index of the Material icons (controllers/icons/materialicons and the
    older controllers/materialicons), and the file layout of the Material and
    Android icon packs. Resource loading is the identity on paths. */
module Icons {
  import opened Wrappers
  import opened Strings
  import opened Densities
  import Paths

  /** One icon in all its colours, sizes and densities. */
  datatype Asset = Asset(
    name: string,
    pack: string,
    category: string,
    resolutions: seq<Resolution>,
    colors: seq<string>,
    sizes: seq<string>)

  datatype IconPack = IconPack(
    name: string,
    id: string,
    url: string,
    path: string,
    assets: seq<Asset>,
    categories: seq<string>)

  /** `equals`: two packs are the same pack when their ids are equal. */
  predicate SamePack(a: IconPack, b: IconPack) {
    a.id == b.id
  }

  /** `toString()`: the pack's name. */
  function Display(p: IconPack): (s: string)
    ensures s == p.name
  {
    p.name
  }

  /** Pack equality is an equivalence that looks only at the id, so the
      id's hash code is a valid hash code. */
  lemma SamePackIsEquivalence(a: IconPack, b: IconPack, c: IconPack, hash: string -> int)
    ensures SamePack(a, a)
    ensures SamePack(a, b) ==> SamePack(b, a)
    ensures SamePack(a, b) && SamePack(b, c) ==> SamePack(a, c)
    ensures SamePack(a, b) ==> hash(a.id) == hash(b.id)
    ensures SamePack(a, a.(name := b.name, url := b.url, path := b.path, assets := b.assets, categories := b.categories))
  {
  }

  // ---- Category index ------------------------------------------------------------

  /** The assets of one category, in pack order: the reference the index is
      checked against. */
  function InCategory(assets: seq<Asset>, c: string): (r: seq<Asset>)
    ensures forall x :: x in r <==> x in assets && x.category == c
    ensures |r| <= |assets|
    decreases |assets|
  {
    if assets == [] then []
    else
      var rest := InCategory(assets[1..], c);
      assert forall x :: x in assets <==> x == assets[0] || x in assets[1..];
      (if assets[0].category == c then [assets[0]] else []) + rest
  }

  /** The loop that files every asset under its category; an asset whose
      category has no list fails on `get(...)` with a null pointer. Filing
      succeeds exactly when every asset's category has a list, and it never
      adds or drops a list. */
  function Distribute(m: map<string, seq<Asset>>, assets: seq<Asset>): (r: Result<map<string, seq<Asset>>>)
    ensures r.Ok? <==> forall i :: 0 <= i < |assets| ==> assets[i].category in m
    ensures r.Err? ==> r.error == NullPointer
    ensures r.Ok? ==> r.value.Keys == m.Keys
    decreases |assets|
  {
    if assets == [] then Ok(m)
    else if assets[0].category !in m then Err(NullPointer)
    else
      var m' := m[assets[0].category := m[assets[0].category] + [assets[0]]];
      assert m'.Keys == m.Keys;
      assert forall i :: 1 <= i < |assets| ==> assets[i] == assets[1..][i - 1];
      Distribute(m', assets[1..])
  }

  /** Filing extends one category's list by that category's assets, in pack
      order. */
  lemma {:induction false} DistributeAt(m: map<string, seq<Asset>>, assets: seq<Asset>, c: string)
    requires Distribute(m, assets).Ok? && c in m
    ensures c in Distribute(m, assets).value
    ensures Distribute(m, assets).value[c] == m[c] + InCategory(assets, c)
    decreases |assets|
  {
    if assets != [] {
      var a := assets[0];
      var m' := m[a.category := m[a.category] + [a]];
      var r := Distribute(m', assets[1..]);
      assert Distribute(m, assets) == r;
      DistributeAt(m', assets[1..], c);
      var rest := InCategory(assets[1..], c);
      assert InCategory(assets, c) == (if a.category == c then [a] else []) + rest;
      if c == a.category {
        assert r.value[c] == (m[c] + [a]) + rest;
        assert (m[c] + [a]) + rest == m[c] + ([a] + rest);
      } else {
        assert r.value[c] == m[c] + rest;
        assert [] + rest == rest;
      }
    }
  }

  /** When filing succeeds every list is extended by its category's assets,
      in pack order, and no list is added. */
  lemma DistributeSpec(m: map<string, seq<Asset>>, assets: seq<Asset>)
    requires Distribute(m, assets).Ok?
    ensures Distribute(m, assets).value.Keys == m.Keys
    ensures forall c :: c in m ==> Distribute(m, assets).value[c] == m[c] + InCategory(assets, c)
  {
    forall c | c in m ensures Distribute(m, assets).value[c] == m[c] + InCategory(assets, c) {
      DistributeAt(m, assets, c);
    }
  }

  /** `initCategoryMap(iconPack)`: an empty list per category, then every
      asset appended to its category's list. The Material controller of
      controllers/icons returns an empty index for a null pack. */
  function CategoryMap(pack: Option<IconPack>): (r: Result<map<string, seq<Asset>>>)
    ensures pack.None? ==> r == Ok(map[])
    ensures pack.Some? ==>
      (r.Ok? <==> forall i :: 0 <= i < |pack.value.assets| ==> pack.value.assets[i].category in pack.value.categories)
    ensures r.Err? ==> r.error == NullPointer
    ensures r.Ok? && pack.Some? ==>
      && r.value.Keys == Elems(pack.value.categories)
      && forall c :: c in r.value ==> r.value[c] == InCategory(pack.value.assets, c)
  {
    if pack.None? then Ok(map[])
    else
      var empty := map c | c in Elems(pack.value.categories) :: [];
      if Distribute(empty, pack.value.assets).Ok? then
        DistributeSpec(empty, pack.value.assets);
        Distribute(empty, pack.value.assets)
      else Distribute(empty, pack.value.assets)
  }

  /** The same index in the older Material controller (controllers/
      materialicons), which dereferences the pack without a null check. */
  function StubCategoryMap(pack: Option<IconPack>): (r: Result<map<string, seq<Asset>>>)
    ensures pack.None? ==> r == Err(NullPointer)
    ensures pack.Some? ==> r == CategoryMap(pack)
  {
    if pack.None? then Err(NullPointer) else CategoryMap(pack)
  }

  /** The index partitions the pack: each asset is listed under its own
      category and nowhere else. */
  lemma CategoryMapPartitions(pack: IconPack, a: Asset, c: string)
    requires CategoryMap(Some(pack)).Ok?
    ensures c in CategoryMap(Some(pack)).value ==>
      (a in CategoryMap(Some(pack)).value[c] <==> a in pack.assets && a.category == c)
    ensures a in pack.assets ==> a.category in CategoryMap(Some(pack)).value
  {
    if a in pack.assets {
      var i :| 0 <= i < |pack.assets| && pack.assets[i] == a;
      assert a.category in Elems(pack.categories);
    }
  }

  /** `getAssets(category)`: the category's list, or null for an unknown one. */
  function AssetsOf(index: map<string, seq<Asset>>, category: string): (r: Option<seq<Asset>>)
    ensures r.Some? <==> category in index
    ensures r.Some? ==> r.value == index[category]
  {
    if category in index then Some(index[category]) else None
  }

  // ---- Material icons --------------------------------------------------------------

  /** A density the Material controller is asked for: a raster density or the
      vector pseudo-density ANYDPI, which model/Resolution.java does not
      declare and is therefore modelled beside it. */
  datatype Density = Raster(resolution: Resolution) | AnyDpi

  /** The Material controller: its pack and category index. */
  datatype MaterialIcons = MaterialIcons(pack: IconPack, index: map<string, seq<Asset>>)

  /** The controller's constructor. */
  function NewMaterialIcons(pack: IconPack): (r: Result<MaterialIcons>)
    ensures r.Ok? <==> CategoryMap(Some(pack)).Ok?
    ensures r.Ok? ==> r.value.pack == pack && r.value.index == CategoryMap(Some(pack)).value
  {
    var index :- CategoryMap(Some(pack));
    Ok(MaterialIcons(pack, index))
  }

  /** Material icons come as vectors too, and their thumbnails are MDPI. */
  const MaterialSupportsVectors := true
  const MaterialThumbnail := MDPI

  /** The local path of a raster Material icon:
      "<category>/drawable-<density>/<name>_<colour>_<size>.png". */
  function MaterialRasterPath(asset: Asset, color: string, size: string, r: Resolution): (p: string)
    ensures StartsWith(p, asset.category + "/drawable-" + Label(r) + "/")
    ensures EndsWith(p, "_" + color + "_" + size + ".png")
  {
    RasterPath(asset.category, Label(r), asset.name, color, size)
  }

  /** "<category>/drawable-<folder>/<name>_<colour>_<size>.png". */
  function RasterPath(category: string, folder: string, name: string, color: string, size: string): (p: string)
    ensures p == category + "/drawable-" + folder + "/" + (name + "_" + color + "_" + size + ".png")
    ensures StartsWith(p, category + "/drawable-" + folder + "/")
    ensures EndsWith(p, "_" + color + "_" + size + ".png")
  {
    var p := category + "/drawable-" + folder + "/" + name + "_" + color + "_" + size + ".png";
    assert p == (category + "/drawable-" + folder + "/") + (name + "_" + color + "_" + size + ".png");
    assert p == (category + "/drawable-" + folder + "/" + name) + ("_" + color + "_" + size + ".png");
    p
  }

  /** The local path of a vector Material icon: always the black 24dp file of
      the anydpi-v21 folder. */
  function MaterialVectorPath(asset: Asset): (p: string)
    ensures StartsWith(p, asset.category + "/drawable-anydpi-v21/")
    ensures EndsWith(p, "_black_24dp.xml")
  {
    var p := asset.category + "/drawable-anydpi-v21/" + asset.name + "_black_24dp.xml";
    assert p == (asset.category + "/drawable-anydpi-v21/") + (asset.name + "_black_24dp.xml");
    p
  }

  /** `getImageFile(asset, color, size, resolution)`: under the pack's path,
      the vector file for ANYDPI and the raster file otherwise. */
  function MaterialImageFile(c: MaterialIcons, asset: Asset, color: string, size: string, d: Density): (f: string)
    ensures d.AnyDpi? ==> f == Paths.PathChild(c.pack.path, MaterialVectorPath(asset))
    ensures d.Raster? ==> f == Paths.PathChild(c.pack.path, MaterialRasterPath(asset, color, size, d.resolution))
    ensures d.Raster? ==> EndsWith(f, ".png")
    ensures d.AnyDpi? ==> EndsWith(f, ".xml")
  {
    var local := if d.AnyDpi? then MaterialVectorPath(asset) else MaterialRasterPath(asset, color, size, d.resolution);
    var f := Paths.PathChild(c.pack.path, local);
    var tail := if d.AnyDpi? then "_black_24dp.xml" else "_" + color + "_" + size + ".png";
    var end := if d.AnyDpi? then ".xml" else ".png";
    assert tail == tail[..|tail| - 4] + end;
    EndsWithTail(f, local, tail, end);
    f
  }

  /** `getImageFile(asset, color, resolution)`: the 24dp size. */
  function MaterialImageFileDefault(c: MaterialIcons, asset: Asset, color: string, d: Density): (f: string)
    ensures f == MaterialImageFile(c, asset, color, "24dp", d)
  {
    MaterialImageFile(c, asset, color, "24dp", d)
  }

  lemma EndsWithTail(f: string, local: string, tail: string, end: string)
    requires EndsWith(f, "/" + local) && EndsWith(local, tail) && EndsWith(tail, end)
    ensures EndsWith(f, end)
  {
    EndsWithTrans(f, "/" + local, local);
    EndsWithTrans(f, local, tail);
    EndsWithTrans(f, tail, end);
  }

  /** One asset in one colour and size has a different raster file per
      density. */
  lemma MaterialRasterInjective(c: MaterialIcons, asset: Asset, color: string, size: string, r1: Resolution, r2: Resolution)
    requires MaterialImageFile(c, asset, color, size, Raster(r1)) == MaterialImageFile(c, asset, color, size, Raster(r2))
    ensures r1 == r2
  {
    Paths.PathChildInjective(c.pack.path, MaterialRasterPath(asset, color, size, r1), MaterialRasterPath(asset, color, size, r2));
    LabelHasNoSlash(r1);
    LabelHasNoSlash(r2);
    RasterPathLabelInjective(asset.category, Label(r1), Label(r2), asset.name, color, size);
    LabelIsLowerName(r1);
  }

  /** Raster paths that differ only in a '/'-free density label differ. */
  lemma RasterPathLabelInjective(category: string, l1: string, l2: string, name: string, color: string, size: string)
    requires '/' !in l1 && '/' !in l2
    requires RasterPath(category, l1, name, color, size) == RasterPath(category, l2, name, color, size)
    ensures l1 == l2
  {
    var tail := name + "_" + color + "_" + size + ".png";
    assert RasterPath(category, l1, name, color, size) == category + "/drawable-" + l1 + ['/'] + tail + "";
    assert RasterPath(category, l2, name, color, size) == category + "/drawable-" + l2 + ['/'] + tail + "";
    FramedSegmentsEqual(category + "/drawable-", l1, tail, l2, tail, "", '/');
  }

  lemma LabelHasNoSlash(r: Resolution)
    ensures '/' !in Label(r)
  {
  }

  /** The vector file depends on the asset alone. */
  lemma MaterialVectorIgnoresColorAndSize(c: MaterialIcons, asset: Asset, c1: string, s1: string, c2: string, s2: string)
    ensures MaterialImageFile(c, asset, c1, s1, AnyDpi) == MaterialImageFile(c, asset, c2, s2, AnyDpi)
    ensures forall r :: MaterialImageFile(c, asset, c1, s1, AnyDpi) != MaterialImageFile(c, asset, c2, s2, Raster(r))
  {
    forall r ensures MaterialImageFile(c, asset, c1, s1, AnyDpi) != MaterialImageFile(c, asset, c2, s2, Raster(r)) {
      var v := MaterialImageFile(c, asset, c1, s1, AnyDpi);
      var p := MaterialImageFile(c, asset, c2, s2, Raster(r));
      assert v[|v| - 1] == 'l' && p[|p| - 1] == 'g';
    }
  }

  /** The older Material controller's file lookups are stubs. */
  function StubImageFile(asset: Asset, color: string, size: string, r: Resolution): (f: Option<string>)
    ensures f.None?
  {
    None
  }

  function StubSupportsResolution(r: Resolution): (b: bool)
    ensures !b
  {
    false
  }

  // ---- Android icons ---------------------------------------------------------------

  /** Android icons come in one category; their thumbnails are LDPI, and
      the controller has no local path of its own. */
  const AndroidThumbnail := LDPI
  const AndroidPath: Option<string> := None

  /** `getAssets(category)`: every asset of the pack, whatever the category. */
  function AndroidAssets(pack: IconPack, category: string): (r: seq<Asset>)
    ensures r == pack.assets
  {
    pack.assets
  }

  /** `getImageFile(asset, color, size, resolution)`:
      "<pack path>/<colour>/<RESOLUTION>/<name>.png"; the size is ignored and
      the density is written in upper case. */
  function AndroidImageFile(pack: IconPack, asset: Asset, color: string, size: Option<string>, r: Resolution): (f: string)
    ensures EndsWith(f, "/" + color + "/" + Name(r) + "/" + asset.name + ".png")
  {
    FolderFile(pack.path, color, Name(r), asset.name + ".png")
  }

  /** "<root>/<outer>/<inner>/<file>" as `new File(root, outer + "/" + inner + "/" + file)`. */
  function FolderFile(root: string, outer: string, inner: string, file: string): (f: string)
    ensures f == Paths.PathChild(root, outer + "/" + inner + "/" + file)
    ensures EndsWith(f, "/" + outer + "/" + inner + "/" + file)
  {
    var local := outer + "/" + inner + "/" + file;
    assert "/" + local == "/" + outer + "/" + inner + "/" + file;
    Paths.PathChild(root, local)
  }

  /** Within one pack, an asset's files differ between colours (without a
      '/') and between densities. */
  lemma AndroidImageFileInjective(pack: IconPack, asset: Asset, c1: string, c2: string, r1: Resolution, r2: Resolution,
                                  s1: Option<string>, s2: Option<string>)
    requires '/' !in c1 && '/' !in c2
    requires AndroidImageFile(pack, asset, c1, s1, r1) == AndroidImageFile(pack, asset, c2, s2, r2)
    ensures c1 == c2 && r1 == r2
  {
    NameHasNoSlash(r1);
    NameHasNoSlash(r2);
    FolderFileInjective(pack.path, c1, Name(r1), c2, Name(r2), asset.name + ".png");
    LabelIsLowerName(r1);
    LabelIsLowerName(r2);
  }

  /** Files of one name under '/'-free folder pairs of one root are the same
      file only in the same folders. */
  lemma FolderFileInjective(root: string, o1: string, i1: string, o2: string, i2: string, file: string)
    requires '/' !in o1 && '/' !in o2 && '/' !in i1 && '/' !in i2
    requires FolderFile(root, o1, i1, file) == FolderFile(root, o2, i2, file)
    ensures o1 == o2 && i1 == i2
  {
    var t1 := i1 + "/" + file;
    var t2 := i2 + "/" + file;
    Paths.PathChildInjective(root, o1 + "/" + i1 + "/" + file, o2 + "/" + i2 + "/" + file);
    assert o1 + "/" + i1 + "/" + file == o1 + ['/'] + t1;
    assert o2 + "/" + i2 + "/" + file == o2 + ['/'] + t2;
    SegmentsEqual(o1, t1, o2, t2, '/');
    assert t1 == i1 + ['/'] + file && t2 == i2 + ['/'] + file;
    SegmentsEqual(i1, file, i2, file, '/');
  }

  lemma NameHasNoSlash(r: Resolution)
    ensures '/' !in Name(r)
  {
  }

  /** `getImageFile(asset, color, resolution)`: no size. */
  function AndroidImageFileDefault(pack: IconPack, asset: Asset, color: string, r: Resolution): (f: string)
    ensures f == AndroidImageFile(pack, asset, color, None, r)
  {
    AndroidImageFile(pack, asset, color, None, r)
  }
}

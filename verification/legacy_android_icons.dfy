/** The Android icon pack controller of the earlier plugin generation: the
    pack holds one folder per colour, each with one folder per density. */
module LegacyAndroidIcons {
  import opened Wrappers
  import opened Strings
  import opened Listing
  import Paths
  import ExportNames

  /** A chosen pack folder: its canonical path and what it holds. */
  datatype Root = Root(path: string, dir: Node)

  datatype State = State(root: Option<Root>, colorDirs: seq<Node>, colors: seq<string>, assets: seq<string>)

  const Empty := State(None, [], [], [])

  /** The filter of system files: names not starting with '.'. */
  predicate Visible(n: Node) {
    !StartsWith(n.name, ".")
  }

  predicate IsDir(n: Node) {
    n.isDir
  }

  function NodeName(n: Node): string {
    n.name
  }

  /** `Arrays.sort(files, alphabeticalComparator)`: ordered by name. */
  function ByName(nodes: seq<Node>): (r: seq<Node>)
    ensures SortedBy(r, NodeName)
    ensures multiset(r) == multiset(nodes)
  {
    SortBy(nodes, NodeName)
  }

  /** A colour as shown: the folder name with every '_' turned into a blank. */
  function ColorName(dir: Node): (c: string)
    ensures '_' !in c && |c| == |dir.name|
  {
    ReplaceChar(dir.name, '_', ' ')
  }

  /** The colours and colour folders added from a root listing. */
  function ColorDirs(listing: seq<Node>): (r: seq<Node>)
    ensures SortedBy(r, NodeName)
    ensures forall n :: n in r <==> n in listing && Visible(n) && n.isDir
  {
    var sorted := ByName(FilterNodes(listing, Visible));
    assert forall n :: n in sorted <==> n in multiset(sorted);
    FilterKeepsOrder(sorted, IsDir);
    FilterNodes(sorted, IsDir)
  }

  /** Filtering keeps a list sorted. */
  lemma {:induction false} FilterKeepsOrder(xs: seq<Node>, p: Node -> bool)
    requires SortedBy(xs, NodeName)
    ensures SortedBy(FilterNodes(xs, p), NodeName)
    decreases |xs|
  {
    if |xs| > 0 {
      FilterKeepsOrder(xs[1..], p);
      var rest := FilterNodes(xs[1..], p);
      forall j | 0 <= j < |rest| ensures AtMost(NodeName(xs[0]), NodeName(rest[j])) {
        assert rest[j] in xs[1..];
        var k :| 0 <= k < |xs[1..]| && xs[1..][k] == rest[j];
        assert xs[k + 1] == rest[j];
      }
    }
  }

  function ColorNames(dirs: seq<Node>): (r: seq<string>)
    ensures |r| == |dirs| && forall i :: 0 <= i < |dirs| ==> r[i] == ColorName(dirs[i])
  {
    seq(|dirs|, i requires 0 <= i < |dirs| => ColorName(dirs[i]))
  }

  /** `loadColors()` as the source writes it: the root is dereferenced
      without a null check, so a controller without a saved root fails. */
  function LoadColorsAsWritten(s: State): (r: Result<State>)
    ensures s.root.None? ==> r == Err(NullPointer)
    ensures s.root.Some? ==> r == LoadColors(s)
  {
    if s.root.None? then Err(NullPointer) else LoadColors(s)
  }

  /** `loadColors()` as evidently intended, like the Material controller's
      `loadCategories()`: without a root nothing is loaded. With one, its
      visible sub-folders, sorted by name, are appended; a root that is not a
      directory fails on sorting its null listing. */
  function LoadColors(s: State): (r: Result<State>)
    ensures s.root.None? ==> r == Ok(s)
    ensures r.Err? <==> s.root.Some? && !s.root.value.dir.isDir
    ensures r.Ok? && s.root.Some? ==>
      var added := ColorDirs(s.root.value.dir.children);
      r.value == s.(colorDirs := s.colorDirs + added, colors := s.colors + ColorNames(added))
  {
    if s.root.None? then Ok(s)
    else
      var listing := ListFiles(s.root.value.dir);
      if listing.None? then Err(NullPointer)
      else
        var added := ColorDirs(listing.value);
        Ok(s.(colorDirs := s.colorDirs + added, colors := s.colors + ColorNames(added)))
  }

  /** The text after the last '.', or the whole name without one. */
  function ExtensionOf(name: string): (e: string)
    ensures '.' !in e
    ensures EndsWith(name, e)
    ensures '.' !in name ==> e == name
    ensures '.' in name ==> |e| < |name| && name[|name| - |e| - 1] == '.'
  {
    name[LastIndexOf(name, '.') + 1..]
  }

  /** Putting an extension without a dot after a name and a '.' gives that
      extension back. */
  lemma ExtensionOfAppended(stem: string, ext: string)
    requires '.' !in ext
    ensures ExtensionOf(stem + "." + ext) == ext
  {
    var name := stem + "." + ext;
    assert name[|stem|] == '.';
    assert forall j :: |stem| < j < |name| ==> name[j] == ext[j - |stem| - 1];
    LastIndexOfAt(name, '.', |stem|);
    assert name[|stem| + 1..] == ext;
  }

  /** A file `loadAssets` takes: not a directory, extension "png" in any case. */
  predicate IsPngFile(n: Node) {
    !n.isDir && EqualsIgnoreCase(ExtensionOf(n.name), "png")
  }

  /** An icon's name: the sanitised export name without "ic_action_". A base
      name that is already a plain drawable name without "ic_action_" is kept
      as it is. */
  function AssetName(fileName: string): (r: string)
    ensures |r| <= |Paths.RemoveExtension(fileName)|
    ensures var base := Paths.RemoveExtension(fileName);
      ExportNames.AllPlain(base) && !Contains(base, ActionPrefix) ==> r == base
  {
    var base := Paths.RemoveExtension(fileName);
    var r := RemoveAll(ExportNames.GetExportNameFromFilename(fileName), ActionPrefix);
    if ExportNames.AllPlain(base) && !Contains(base, ActionPrefix) then
      RemoveAllAbsent(base, ActionPrefix);
      r
    else r
  }

  /** Two plain names make a plain name. */
  lemma PlainAppend(a: string, b: string)
    requires ExportNames.AllPlain(a) && ExportNames.AllPlain(b)
    ensures ExportNames.AllPlain(a + b)
  {
    forall i | 0 <= i < |a + b| ensures ExportNames.Plain((a + b)[i]) {
      if i < |a| {
        assert (a + b)[i] == a[i];
      } else {
        assert (a + b)[i] == b[i - |a|];
      }
    }
  }

  const ActionPrefix := "ic_action_"

  lemma ActionPrefixPlain()
    ensures ExportNames.AllPlain(ActionPrefix)
  {
    forall i | 0 <= i < |ActionPrefix| ensures ExportNames.Plain(ActionPrefix[i]) {
      assert ActionPrefix[i] in "abcdefghijklmnopqrstuvwxyz_";
    }
  }

  /** The icon pack's file names come back as the icon names they were made from:
      "ic_action_<n>.png" gives `n` for any plain drawable name `n` that does
      not itself hold "ic_action_". */
  lemma AssetNameOfActionIcon(n: string)
    requires ExportNames.AllPlain(n) && !Contains(n, ActionPrefix)
    ensures AssetName(ActionPrefix + n + ".png") == n
  {
    var f := ActionPrefix + n + ".png";
    ActionIconStem(n);
    assert ExportNames.GetExportNameFromFilename(f) == ActionPrefix + n;
    RemoveAllPrefix(ActionPrefix, n);
    RemoveAllAbsent(n, ActionPrefix);
  }

  /** "ic_action_<n>.png" without its extension is the plain name
      "ic_action_<n>". */
  lemma ActionIconStem(n: string)
    requires ExportNames.AllPlain(n)
    ensures Paths.RemoveExtension(ActionPrefix + n + ".png") == ActionPrefix + n
    ensures ExportNames.AllPlain(ActionPrefix + n)
  {
    var stem := ActionPrefix + n;
    assert '/' !in n && '\\' !in n by {
      assert forall i :: 0 <= i < |n| ==> ExportNames.Plain(n[i]);
    }
    assert stem + "." + "png" == ActionPrefix + n + ".png";
    Paths.RemoveExtensionOfAppended(stem, "png");
    ActionPrefixPlain();
    PlainAppend(ActionPrefix, n);
  }



  /** The icon name of one file. */
  function FileAssetName(f: Node): string {
    AssetName(f.name)
  }

  /** The icon names of a sorted list of files, in order: directories and
      files of other types are skipped. */
  function PngAssets(files: seq<Node>): (r: seq<string>)
    ensures var kept := FilterNodes(files, IsPngFile);
      |r| == |kept| && forall i :: 0 <= i < |kept| ==> r[i] == AssetName(kept[i].name)
    ensures forall x :: x in r <==> exists f :: f in files && IsPngFile(f) && x == AssetName(f.name)
  {
    FilterMapIsMapOfFilter(files, IsPngFile, FileAssetName);
    FilterMap(files, IsPngFile, FileAssetName)
  }

  /** The density folder `loadAssets` scans: the first visible entry, in
      listing order, of the first colour folder; none without a colour
      folder, or when that folder has no visible entry. */
  function FirstDensity(s: State): (r: Option<Node>)
    ensures s.colorDirs == [] ==> r.None?
    ensures r.Some? ==> r.value in s.colorDirs[0].children && Visible(r.value)
    ensures s.colorDirs != [] && s.colorDirs[0].isDir && r.None? ==>
      forall c :: c in s.colorDirs[0].children ==> !Visible(c)
  {
    if |s.colorDirs| < 1 then None
    else
      var densities := ListFiles(s.colorDirs[0]);
      if densities.None? then None
      else
        var visible := FilterNodes(densities.value, Visible);
        if |visible| < 1 then None else Some(visible[0])
  }

  /** No visible entry comes before the scanned density folder. */
  lemma FirstDensityIsFirst(s: State, k: int)
    requires s.colorDirs != [] && s.colorDirs[0].isDir
    requires 0 <= k < |s.colorDirs[0].children| && Visible(s.colorDirs[0].children[k])
    requires forall j :: 0 <= j < k ==> !Visible(s.colorDirs[0].children[j])
    ensures FirstDensity(s) == Some(s.colorDirs[0].children[k])
  {
    FilterNodesHead(s.colorDirs[0].children, Visible, k);
  }

  /** The files `loadAssets` scans: the visible entries of `FirstDensity`,
      sorted by name; none when it is missing or not a folder. */
  function AssetFiles(s: State): (r: seq<Node>)
    ensures FirstDensity(s).None? || !FirstDensity(s).value.isDir ==> r == []
    ensures FirstDensity(s).Some? && FirstDensity(s).value.isDir ==>
      multiset(r) == multiset(FilterNodes(FirstDensity(s).value.children, Visible))
    ensures SortedBy(r, NodeName)
  {
    var density := FirstDensity(s);
    if density.None? then []
    else
      var listing := ListFiles(density.value);
      if listing.None? then []
      else ByName(FilterNodes(listing.value, Visible))
  }

  /** `loadAssets()`: appends the icon names of `AssetFiles`. */
  function LoadAssets(s: State): (r: State)
    ensures r == s.(assets := s.assets + PngAssets(AssetFiles(s)))
    ensures s.colorDirs == [] ==> r == s
  {
    var files := AssetFiles(s);
    if files == [] then s else s.(assets := s.assets + PngAssets(files))
  }

  /** `load()` as written: `loadColors()` dereferences the root without a
      null check, so a controller without a root throws. */
  function Load(s: State): (r: Result<State>)
    ensures s.root.None? ==> r == Err(NullPointer)
    ensures s.root.Some? ==> (r.Err? <==> !s.root.value.dir.isDir)
    ensures r.Err? ==> r.error == NullPointer
    ensures r.Ok? ==> r.value == LoadAssets(LoadColors(s).value)
  {
    var t :- LoadColorsAsWritten(s);
    Ok(LoadAssets(t))
  }

  /** `load()` over the corrected `LoadColors`: without a root only the icons
      of the colour folders already held are scanned again. */
  function LoadCorrected(s: State): (r: Result<State>)
    ensures s.root.None? ==> r == Ok(LoadAssets(s))
    ensures s.root.Some? ==> r == Load(s)
  {
    var t :- LoadColors(s);
    Ok(LoadAssets(t))
  }

  /** The constructor as written: `load()` after restoring the root. */
  function NewAsWritten(root: Option<Root>): (r: Result<State>)
    ensures root.None? ==> r == Err(NullPointer)
    ensures root.Some? ==> (r.Ok? <==> root.value.dir.isDir)
    ensures r.Ok? ==> r.value.root == root
  {
    Load(Empty.(root := root))
  }

  /** The constructor over the corrected loader, with the null check the
      Material controller has: with no saved root it is simply empty. */
  function New(root: Option<Root>): (r: Result<State>)
    ensures root.None? ==> r == Ok(Empty)
    ensures root.Some? ==> r == NewAsWritten(root)
  {
    LoadCorrected(Empty.(root := root))
  }

  /** Without a saved asset path the controller as written cannot even be
      constructed, while the corrected one starts empty. */
  lemma NewWithoutRoot()
    ensures NewAsWritten(None) == Err(NullPointer)
    ensures New(None) == Ok(Empty)
  {
  }

  /** `setPath(file)`: the new root is loaded on top of what is held;
      clearing the path throws, as `load()` does without a root. */
  function SetPath(s: State, root: Option<Root>): (r: Result<State>)
    ensures root.None? ==> r == Err(NullPointer)
    ensures root.Some? ==> (r.Err? <==> !root.value.dir.isDir)
    ensures r.Ok? ==> r.value.root == root
    ensures r.Ok? ==> r.value == LoadAssets(LoadColors(s.(root := root)).value)
  {
    Load(s.(root := root))
  }

  /** Clearing the path, or loading after a reset, throws a null pointer. */
  lemma NoRootThrows(s: State)
    ensures SetPath(s, None) == Err(NullPointer)
    ensures Load(Reset(s)) == Err(NullPointer)
  {
  }

  /** `reset()`. */
  function Reset(s: State): (r: State)
    ensures r.root.None? && r.colorDirs == [] && r.colors == [] && r.assets == []
  {
    Empty
  }

  /** `getPath()`: the root's path, or "" without a root. */
  function GetPath(s: State): (p: string)
    ensures s.root.None? ==> p == ""
    ensures s.root.Some? ==> p == s.root.value.path
  {
    if s.root.Some? then s.root.value.path else ""
  }

  /** After loading a root into an empty controller: the colours are the
      visible sub-folders in name order with blanks for '_', and the icons
      are exactly the PNG files of the scanned density folder. */
  lemma LoadFromEmpty(root: Root)
    requires root.dir.isDir
    ensures SetPath(Empty, Some(root)).Ok?
    ensures
      var s := SetPath(Empty, Some(root)).value;
      && SortedBy(s.colorDirs, NodeName)
      && (forall n :: n in s.colorDirs <==> n in root.dir.children && Visible(n) && n.isDir)
      && |s.colors| == |s.colorDirs|
      && (forall i :: 0 <= i < |s.colors| ==> s.colors[i] == ColorName(s.colorDirs[i]) && '_' !in s.colors[i])
      && s.assets == PngAssets(AssetFiles(s))
  {
    var s1 := LoadColors(Empty.(root := Some(root))).value;
    assert s1.assets == [];
    assert s1.colorDirs == [] + ColorDirs(root.dir.children);
    assert s1.colors == [] + ColorNames(ColorDirs(root.dir.children));
    var s := SetPath(Empty, Some(root)).value;
    assert s == LoadAssets(s1);
    assert s.colorDirs == s1.colorDirs;
    assert FirstDensity(s) == FirstDensity(s1);
    assert AssetFiles(s) == AssetFiles(s1);
  }

  /** Loading a second root without a reset keeps the first root's colours
      and icons in front. */
  lemma LoadAppends(s: State, root: Root)
    requires root.dir.isDir
    ensures SetPath(s, Some(root)).Ok?
    ensures SetPath(s, Some(root)).value.colors[..|s.colors|] == s.colors
    ensures SetPath(s, Some(root)).value.assets[..|s.assets|] == s.assets
  {
  }
}

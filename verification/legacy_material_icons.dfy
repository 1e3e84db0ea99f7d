/** The icon-pack controllers of the earlier plugin generation, which scan a
    downloaded pack on disk (controllers/materialicons/MaterialIconsController.java
    and controllers/androidicons/AndroidIconsController.java under src/de).
    The pack's folder is a `Listing.Node` tree together with its canonical
    path; the persisted asset path, the IDE's file lookup and the observers
    are left out. */
module LegacyMaterialIcons {
  import opened Wrappers
  import opened Strings
  import opened Listing
  import Paths
  import TextUtils
  import R = Densities
  import Icons

  /** A chosen pack folder: its canonical path and what it holds. */
  datatype Root = Root(path: string, dir: Node)

  /** An icon of the Material pack: its name, category and the density it is
      shown in. The controller imports the current plugin's `model.Resolution`
      (seven constants, TVDPI included), not the earlier `images.Resolution`. */
  datatype Asset = Asset(name: string, category: string, defaultResolution: R.Resolution)

  datatype State = State(root: Option<Root>, categoryDirs: seq<Node>, categories: seq<string>, assets: seq<Asset>)

  /** The controller with nothing loaded; `reset()` returns to it. */
  const Empty := State(None, [], [], [])

  /** `DEFAULT_RESOLUTION`: the folder the importer lists icons from. */
  const DefaultResolutionFolder := "drawable-xhdpi"

  /** `BLACKLISTED_MATERIAL_ICONS_FOLDER`. */
  const Blacklist := ["sprites", "1x_ios", "1x_web", "2x_ios", "2x_web", "3x_ios", "svg"]

  /** `SUPPORTED_RESOLUTIONS`. */
  const Supported: set<R.Resolution> := {R.MDPI, R.HDPI, R.XHDPI, R.XXHDPI, R.XXXHDPI}

  // ---- Filters and name parsing ----------------------------------------------------

  /** The folder filter: a visible directory whose name, without extension,
      is not blacklisted. */
  predicate FolderAccepted(n: Node) {
    !StartsWith(n.name, ".") && n.isDir && Paths.RemoveExtension(n.name) !in Blacklist
  }

  /** Hidden entries, files and the blacklisted folders are skipped. */
  lemma FolderFilterSkips(cs: seq<Node>)
    ensures !FolderAccepted(Node(".git", true, cs))
    ensures !FolderAccepted(Node("action", false, cs))
    ensures !FolderAccepted(Node("svg", true, cs)) && !FolderAccepted(Node("2x_web", true, cs))
  {
    assert ".git"[..1] == ".";
    NoDotNoExtension("svg");
    NoDotNoExtension("2x_web");
  }

  /** A visible category folder is kept. */
  lemma FolderFilterKeeps(cs: seq<Node>)
    ensures FolderAccepted(Node("action", true, cs))
  {
    assert "action"[0] != '.';
    NoDotNoExtension("action");
  }

  lemma NoDotNoExtension(name: string)
    requires '.' !in name
    ensures Paths.RemoveExtension(name) == name
  {
  }

  /** The icon-file filter: a ".png" file whose base name starts with "ic_"
      and ends with "_black_48dp"; for a given asset name it must start with
      "ic_<name>_", and for a given size also end with "_<size>". */
  predicate AssetAccepted(fileName: string, assetName: Option<string>, size: Option<string>) {
    && Paths.IsExtension(fileName, "png")
    && var base := Paths.RemoveExtension(fileName);
       if assetName.None? then StartsWith(base, "ic_") && EndsWith(base, "_black_48dp")
       else StartsWith(base, "ic_" + assetName.value + "_") && (size.None? || EndsWith(base, "_" + size.value))
  }

  /** The files of a folder the icon-file filter accepts, in listing order. */
  function IconFiles(nodes: seq<Node>, assetName: Option<string>, size: Option<string>): (r: seq<Node>)
    ensures forall n :: n in r <==> n in nodes && AssetAccepted(n.name, assetName, size)
  {
    FilterNodes(nodes, (n: Node) => AssetAccepted(n.name, assetName, size))
  }

  /** `getAssetName(file)`: the base name with every "_black_48dp" and then
      every "ic_" removed. */
  function AssetName(fileName: string): (r: string)
    ensures |r| <= |Paths.RemoveExtension(fileName)|
    ensures var base := Paths.RemoveExtension(fileName);
      !Contains(base, BlackSuffix) && !Contains(base, IconPrefix) ==> r == base
  {
    var base := Paths.RemoveExtension(fileName);
    var r := RemoveAll(RemoveAll(base, BlackSuffix), IconPrefix);
    if !Contains(base, BlackSuffix) && !Contains(base, IconPrefix) then
      RemoveAllAbsent(base, BlackSuffix);
      RemoveAllAbsent(base, IconPrefix);
      r
    else r
  }

  const IconPrefix := "ic_"
  const BlackSuffix := "_black_48dp"

  /** The icon pack's file names come back as the icon names they were made from:
      "ic_<n>_black_48dp.png" gives `n` whenever `n` holds no separator, no
      "ic_", and no "_black_48dp" even with the '_' of "ic_" in front. */
  lemma AssetNameOfBlackIcon(n: string)
    requires '/' !in n && '\\' !in n
    requires !Contains(n, IconPrefix) && !Contains("_" + n, BlackSuffix)
    ensures AssetName(IconPrefix + n + BlackSuffix + ".png") == n
  {
    BlackIconStem(n);
    BlackSuffixRemoved(n);
    RemoveAllPrefix(IconPrefix, n);
    RemoveAllAbsent(n, IconPrefix);
  }

  lemma BlackIconStem(n: string)
    requires '/' !in n && '\\' !in n
    ensures Paths.RemoveExtension(IconPrefix + n + BlackSuffix + ".png") == IconPrefix + n + BlackSuffix
  {
    var stem := IconPrefix + n + BlackSuffix;
    assert stem + "." + "png" == IconPrefix + n + BlackSuffix + ".png";
    Paths.RemoveExtensionOfAppended(stem, "png");
  }

  /** The only "_black_48dp" of such a name is its last. */
  lemma BlackSuffixRemoved(n: string)
    requires !Contains("_" + n, BlackSuffix)
    ensures RemoveAll(IconPrefix + n + BlackSuffix, BlackSuffix) == IconPrefix + n
  {
    var front := BlackSuffix[..|BlackSuffix| - 1];
    assert front == "_black_48d";
    ContainsDropBack("_" + n, front, BlackSuffix);
    assert IconPrefix + n + front == "ic" + ("_" + n + front);
    ContainsDropFront("ic", "_" + n + front, BlackSuffix);
    RemoveAllAtEnd(IconPrefix + n, BlackSuffix);
  }

  /** A character the size pattern `[-?0-9]` keeps. */
  predicate SizeChar(c: char) {
    c == '-' || c == '?' || '0' <= c <= '9'
  }

  /** The text up to and including the last size character. */
  function UpToLastSizeChar(s: string): (t: string)
    ensures |t| <= |s| && t == s[..|t|]
    ensures t == [] || SizeChar(t[|t| - 1])
    ensures forall i :: |t| <= i < |s| ==> !SizeChar(s[i])
    decreases |s|
  {
    if |s| > 0 && !SizeChar(s[|s| - 1]) then UpToLastSizeChar(s[..|s| - 1]) else s
  }

  /** The longest suffix made of size characters. */
  function TrailingRun(t: string): (r: string)
    ensures |r| <= |t| && r == t[|t| - |r|..]
    ensures forall i :: 0 <= i < |r| ==> SizeChar(r[i])
    ensures |r| < |t| ==> !SizeChar(t[|t| - |r| - 1])
    decreases |t|
  {
    if |t| > 0 && SizeChar(t[|t| - 1]) then
      var r := TrailingRun(t[..|t| - 1]) + [t[|t| - 1]];
      assert t[..|t| - 1][|t| - 1 - (|r| - 1)..] == t[|t| - |r|..|t| - 1];
      r
    else []
  }

  /** The size `getSizes` reads off a base name: every run of characters
      outside `[-?0-9]` becomes a blank, the blanks at both ends are trimmed,
      the rest is split at the blanks, and the last field gets "dp"; that
      field is the last maximal run of size characters (empty when there is
      none). */
  function SizeOf(base: string): (size: string)
    ensures EndsWith(size, "dp")
    ensures forall i :: 0 <= i < |size| - 2 ==> SizeChar(size[i])
  {
    TrailingRun(UpToLastSizeChar(base)) + "dp"
  }

  /** The size of a Material file name "<...>_<digits>dp" is "<digits>dp". */
  lemma SizeOfMaterialName(p: string, d: string)
    requires d != [] && forall i :: 0 <= i < |d| ==> '0' <= d[i] <= '9'
    ensures SizeOf(p + "_" + d + "dp") == d + "dp"
  {
    MaterialNameUpTo(p, d);
    MaterialNameRun(p, d);
  }

  /** Cutting after the last size character drops the "dp". */
  lemma MaterialNameUpTo(p: string, d: string)
    requires d != [] && forall i :: 0 <= i < |d| ==> '0' <= d[i] <= '9'
    ensures UpToLastSizeChar(p + "_" + d + "dp") == p + "_" + d
  {
    var t := p + "_" + d;
    var c := d[|d| - 1];
    assert '0' <= c <= '9';
    assert t[|t| - 1] == c;
    NotSizeChars("dp");
    UpToDropsTail(t, "dp");
  }

  lemma NotSizeChars(u: string)
    requires u == "dp"
    ensures forall i :: 0 <= i < |u| ==> !SizeChar(u[i])
  {
    assert u[0] == 'd' && u[1] == 'p';
  }

  /** A tail without size characters is cut off whole. */
  lemma {:induction false} UpToDropsTail(t: string, u: string)
    requires t != [] && SizeChar(t[|t| - 1])
    requires forall i :: 0 <= i < |u| ==> !SizeChar(u[i])
    ensures UpToLastSizeChar(t + u) == t
    decreases |u|
  {
    if u != [] {
      var u' := u[..|u| - 1];
      assert (t + u)[..|t + u| - 1] == t + u';
      UpToDropsTail(t, u');
    } else {
      assert t + u == t;
    }
  }

  /** The trailing run of size characters stops at the '_'. */
  lemma MaterialNameRun(p: string, d: string)
    requires d != [] && forall i :: 0 <= i < |d| ==> '0' <= d[i] <= '9'
    ensures TrailingRun(p + "_" + d) == d
  {
    var q := p + "_";
    assert q[|q| - 1] == '_';
    TrailingRunAfter(q, d);
  }

  /** After a character outside the pattern, the trailing run is the whole
      run of size characters that follows it. */
  lemma {:induction false} TrailingRunAfter(q: string, d: string)
    requires q != [] && !SizeChar(q[|q| - 1])
    requires forall i :: 0 <= i < |d| ==> SizeChar(d[i])
    ensures TrailingRun(q + d) == d
    decreases |d|
  {
    if d == [] {
      assert q + d == q;
    } else {
      var d' := d[..|d| - 1];
      assert (q + d)[..|q + d| - 1] == q + d';
      TrailingRunAfter(q, d');
      assert d == d' + [d[|d| - 1]];
    }
  }

  /** The colour `getColors` reads off a base name: its second-to-last
      '_'-separated field, trimmed; fewer than two fields throw. */
  function ColorOf(base: string): (r: Result<string>)
    ensures r.Err? <==> |JavaSplit(base, '_')| < 2
    ensures r.Err? ==> r.error == IndexOutOfBounds
    ensures r.Ok? ==> r.value == Trim(JavaSplit(base, '_')[|JavaSplit(base, '_')| - 2])
  {
    var parts := JavaSplit(base, '_');
    if |parts| < 2 then Err(IndexOutOfBounds) else Ok(Trim(parts[|parts| - 2]))
  }

  /** The colour of a Material file name "<...>_<colour>_<size>" is the
      colour, whatever the name holds. */
  lemma ColorOfMaterialName(p: string, color: string, size: string)
    requires '_' !in color && '_' !in size && size != []
    requires forall i :: 0 <= i < |color| ==> color[i] > ' '
    ensures ColorOf(p + "_" + color + "_" + size) == Ok(color)
  {
    var s := p + "_" + color + "_" + size;
    assert JavaSplit(s, '_') == Split(p, '_') + [color, size] by {
      SplitTwoFields(p, color, size);
      assert s[|p|] == '_';
      JavaSplitKeepsLast(s, '_');
    }
    TrimNoBlanks(color);
  }

  lemma SplitTwoFields(p: string, color: string, size: string)
    requires '_' !in color && '_' !in size
    ensures Split(p + "_" + color + "_" + size, '_') == Split(p, '_') + [color, size]
  {
    assert p + "_" + color + "_" + size == p + ['_'] + (color + ['_'] + size);
    SplitAppend(p, '_', color + ['_'] + size);
    SplitAppend(color, '_', size);
    SplitNoSeparator(color, '_');
    SplitNoSeparator(size, '_');
  }

  lemma TrimNoBlanks(s: string)
    requires forall i :: 0 <= i < |s| ==> s[i] > ' '
    ensures Trim(s) == s
  {
    assert TrimStart(s) == s;
  }

  // ---- Loading ---------------------------------------------------------------------

  /** A sub-folder of a folder, as `new File(dir, name)` finds it. */
  function Lookup(n: Node, name: string): (r: Option<Node>)
    ensures r.Some? ==> n.isDir && r.value in n.children && r.value.name == name
    ensures n.isDir && r.None? ==> forall c :: c in n.children ==> c.name != name
  {
    if n.isDir then ChildNamed(n, name) else None
  }

  /** The density folder `loadAssets` scans in a category folder: its first
      entry, in listing order, that the folder filter accepts. */
  function FirstDensity(category: Node): (r: Option<Node>)
    ensures !category.isDir ==> r.None?
    ensures r.Some? ==> r.value in category.children && FolderAccepted(r.value) && r.value.isDir
    ensures category.isDir && r.None? ==> forall c :: c in category.children ==> !FolderAccepted(c)
  {
    var densities := ListFiles(category);
    if densities.None? then None
    else
      var accepted := FilterNodes(densities.value, FolderAccepted);
      if accepted == [] then None else Some(accepted[0])
  }

  /** No accepted entry comes before the scanned density folder. */
  lemma FirstDensityIsFirst(category: Node, k: int)
    requires category.isDir && 0 <= k < |category.children| && FolderAccepted(category.children[k])
    requires forall j :: 0 <= j < k ==> !FolderAccepted(category.children[j])
    ensures FirstDensity(category) == Some(category.children[k])
  {
    FilterNodesHead(category.children, FolderAccepted, k);
  }

  /** The icons `loadAssets` finds in one category folder: one per icon file
      of its first accepted density folder, in listing order, named by
      `AssetName`; none without such a folder. */
  function AssetsOfCategory(category: Node): (r: seq<Asset>)
    ensures FirstDensity(category).None? ==> r == []
    ensures FirstDensity(category).Some? ==>
      var files := IconFiles(FirstDensity(category).value.children, None, None);
      |r| == |files| && forall i :: 0 <= i < |files| ==> r[i] == Asset(AssetName(files[i].name), category.name, R.XHDPI)
  {
    var density := FirstDensity(category);
    if density.None? then []
    else
      var files := IconFiles(density.value.children, None, None);
      seq(|files|, i requires 0 <= i < |files| => Asset(AssetName(files[i].name), category.name, R.XHDPI))
  }

  /** Every icon of a category folder is filed under that category in XHDPI
      and named after an accepted icon file of the scanned density folder. */
  lemma AssetsOfCategoryFiled(category: Node)
    ensures forall a :: a in AssetsOfCategory(category) ==>
      && a.category == category.name && a.defaultResolution == R.XHDPI
      && FirstDensity(category).Some?
      && exists f :: f in FirstDensity(category).value.children && AssetAccepted(f.name, None, None) && a.name == AssetName(f.name)
  {
    var r := AssetsOfCategory(category);
    forall a | a in r
      ensures FirstDensity(category).Some?
      ensures exists f :: f in FirstDensity(category).value.children && AssetAccepted(f.name, None, None) && a.name == AssetName(f.name)
    {
      var files := IconFiles(FirstDensity(category).value.children, None, None);
      var i :| 0 <= i < |r| && r[i] == a;
      assert files[i] in files;
    }
  }

  /** Every icon of a category folder is filed under it, in XHDPI. */
  lemma AssetsOfCategoryInXhdpi(category: Node)
    ensures forall a :: a in AssetsOfCategory(category) ==> a.category == category.name && a.defaultResolution == R.XHDPI
  {
  }

  /** The icons of a list of category folders, folder by folder: each is
      filed under one of the folders, and every icon of every folder is
      there. */
  function AssetsOfAll(dirs: seq<Node>): (r: seq<Asset>)
    ensures forall a :: a in r ==> a.category in Names(dirs) && a.defaultResolution == R.XHDPI
    ensures forall i, a :: 0 <= i < |dirs| && a in AssetsOfCategory(dirs[i]) ==> a in r
    decreases |dirs|
  {
    if dirs == [] then []
    else
      var rest := AssetsOfAll(dirs[1..]);
      AssetsOfAllStep(dirs, rest);
      AssetsOfCategory(dirs[0]) + rest
  }

  /** One folder more: its icons in front of those of the others. */
  lemma AssetsOfAllStep(dirs: seq<Node>, rest: seq<Asset>)
    requires dirs != []
    requires forall a :: a in rest ==> a.category in Names(dirs[1..]) && a.defaultResolution == R.XHDPI
    requires forall i, a :: 0 <= i < |dirs[1..]| && a in AssetsOfCategory(dirs[1..][i]) ==> a in rest
    ensures forall a :: a in AssetsOfCategory(dirs[0]) + rest ==> a.category in Names(dirs) && a.defaultResolution == R.XHDPI
    ensures forall i, a :: 0 <= i < |dirs| && a in AssetsOfCategory(dirs[i]) ==> a in AssetsOfCategory(dirs[0]) + rest
  {
    var first := AssetsOfCategory(dirs[0]);
    assert Names(dirs) == [dirs[0].name] + Names(dirs[1..]);
    AssetsOfCategoryInXhdpi(dirs[0]);
    forall i, a | 0 <= i < |dirs| && a in AssetsOfCategory(dirs[i]) ensures a in first + rest {
      if i > 0 {
        assert dirs[i] == dirs[1..][i - 1];
      }
    }
  }

  lemma {:induction false} AssetsOfAllAppend(a: seq<Node>, b: seq<Node>)
    ensures AssetsOfAll(a + b) == AssetsOfAll(a) + AssetsOfAll(b)
    decreases |a|
  {
    if a != [] {
      var ab := a + b;
      assert ab[0] == a[0] && ab[1..] == a[1..] + b;
      AssetsOfAllAppend(a[1..], b);
      assert AssetsOfAll(ab) == AssetsOfCategory(a[0]) + AssetsOfAll(a[1..] + b);
      assert AssetsOfAll(a) == AssetsOfCategory(a[0]) + AssetsOfAll(a[1..]);
      AppendAssoc(AssetsOfCategory(a[0]), AssetsOfAll(a[1..]), AssetsOfAll(b));
    } else {
      assert a + b == b;
    }
  }


  /** `loadCategories()`: with a root, every accepted folder of it is
      appended to the category folders and its name to the categories; a
      root that is not a directory fails when its null listing is iterated. */
  function LoadCategories(s: State): (r: Result<State>)
    ensures s.root.None? ==> r == Ok(s)
    ensures r.Err? <==> s.root.Some? && !s.root.value.dir.isDir
    ensures r.Ok? && s.root.Some? ==>
      var added := FilterNodes(s.root.value.dir.children, FolderAccepted);
      && r.value == s.(categoryDirs := s.categoryDirs + added, categories := s.categories + Names(added))
  {
    if s.root.None? then Ok(s)
    else
      var listing := ListFiles(s.root.value.dir);
      if listing.None? then Err(NullPointer)
      else
        var added := FilterNodes(listing.value, FolderAccepted);
        Ok(s.(categoryDirs := s.categoryDirs + added, categories := s.categories + Names(added)))
  }

  /** `loadAssets()`: the icons of EVERY category folder held so far are
      appended, not just those of the folders loaded last. */
  function LoadAssets(s: State): (r: State)
    ensures r == s.(assets := s.assets + AssetsOfAll(s.categoryDirs))
  {
    if |s.categoryDirs| < 1 then s else s.(assets := s.assets + AssetsOfAll(s.categoryDirs))
  }

  /** `load()`: categories, then icons. */
  function Load(s: State): (r: Result<State>)
    ensures r.Ok? <==> LoadCategories(s).Ok?
    ensures r.Ok? ==> r.value == LoadAssets(LoadCategories(s).value)
  {
    var t :- LoadCategories(s);
    Ok(LoadAssets(t))
  }

  /** `setPath(file)`: the new root is loaded on top of what is held. */
  function SetPath(s: State, root: Option<Root>): (r: Result<State>)
    ensures r == Load(s.(root := root))
  {
    Load(s.(root := root))
  }

  /** `reset()`: no root and nothing loaded. */
  function Reset(s: State): (r: State)
    ensures r.root.None? && r.categoryDirs == [] && r.categories == [] && r.assets == []
  {
    Empty
  }

  /** The constructor with the restored root. */
  function New(root: Option<Root>): (r: Result<State>)
    ensures r == SetPath(Empty, root)
    ensures root.None? ==> r == Ok(Empty)
  {
    SetPath(Empty, root)
  }

  /** Setting a directory as root appends its accepted folders, their names
      and the icons of all category folders held afterwards. */
  lemma SetPathAppends(s: State, root: Root)
    requires root.dir.isDir
    ensures
      var added := FilterNodes(root.dir.children, FolderAccepted);
      SetPath(s, Some(root)) == Ok(State(Some(root), s.categoryDirs + added, s.categories + Names(added),
                                         s.assets + AssetsOfAll(s.categoryDirs + added)))
  {
  }

  /** Loading the same root twice without a reset lists every category twice
      and every icon THREE times, because the second pass re-scans the
      folders of the first one as well. */
  lemma LoadTwiceRepeats(root: Root)
    requires root.dir.isDir
    ensures SetPath(Empty, Some(root)).Ok?
    ensures SetPath(SetPath(Empty, Some(root)).value, Some(root)).Ok?
    ensures
      var s1 := SetPath(Empty, Some(root)).value;
      var s2 := SetPath(s1, Some(root)).value;
      && s2.categories == s1.categories + s1.categories
      && s2.assets == s1.assets + (s1.assets + s1.assets)
  {
    var added := FilterNodes(root.dir.children, FolderAccepted);
    var a := AssetsOfAll(added);
    SetPathAppends(Empty, root);
    var s1 := SetPath(Empty, Some(root)).value;
    assert [] + added == added && [] + Names(added) == Names(added) && [] + a == a;
    assert s1 == State(Some(root), added, Names(added), a);
    SetPathAppends(s1, root);
    AssetsOfAllAppend(added, added);
    var s2 := SetPath(s1, Some(root)).value;
    assert s2 == State(Some(root), added + added, Names(added) + Names(added), a + AssetsOfAll(added + added));
    assert s2.assets == a + (a + a);
  }

  /** `getPath()`: the root's path, or "" without a root. */
  function GetPath(s: State): (p: string)
    ensures s.root.None? ==> p == ""
    ensures s.root.Some? ==> p == s.root.value.path
  {
    if s.root.Some? then s.root.value.path else ""
  }

  /** `isInitialized()`: the path is not empty. */
  predicate IsInitialized(s: State) {
    !TextUtils.IsEmpty(Some(GetPath(s)))
  }

  /** A reset controller is not initialised and has nothing to offer. */
  lemma ResetForgetsEverything(s: State)
    ensures GetPath(Reset(s)) == "" && !IsInitialized(Reset(s))
  {
  }

  // ---- What the importer asks for --------------------------------------------------

  /** "<root>/<category>/drawable-xhdpi", if it exists: the first entry of
      the root with the category's name must be a folder, and its first entry
      called "drawable-xhdpi" must be a folder too. */
  function CategoryFolder(s: State, category: string): (r: Option<Node>)
    requires s.root.Some?
    ensures r.Some? ==> r.value.isDir && r.value.name == DefaultResolutionFolder
    ensures r.Some? ==> exists c :: c in s.root.value.dir.children && c.name == category && r.value in c.children
    ensures s.root.value.dir.isDir && (forall c :: c in s.root.value.dir.children ==> c.name != category) ==> r.None?
    ensures forall i, j ::
      (s.root.value.dir.isDir && FirstNamed(s.root.value.dir.children, category, i)
       && FirstNamed(s.root.value.dir.children[i].children, DefaultResolutionFolder, j)) ==>
      r == (if s.root.value.dir.children[i].isDir && s.root.value.dir.children[i].children[j].isDir
            then Some(s.root.value.dir.children[i].children[j]) else None)
  {
    var root := s.root.value.dir;
    ChildInFirstAll(root.children, category);
    var c := Lookup(root, category);
    if c.None? then None
    else
      ChildInFirstAll(c.value.children, DefaultResolutionFolder);
      var d := Lookup(c.value, DefaultResolutionFolder);
      if d.Some? && d.value.isDir then d else None
  }

  /** A regular file named "drawable-xhdpi" is no folder to list. */
  lemma CategoryFolderNotAFile(s: State, category: string, cs: seq<Node>)
    requires s.root.Some? && s.root.value.dir.isDir
    requires |s.root.value.dir.children| > 0
    requires s.root.value.dir.children[0] == Node(category, true, [Node(DefaultResolutionFolder, false, cs)])
    ensures CategoryFolder(s, category).None?
  {
    assert ChildIn(s.root.value.dir.children, category) == Some(s.root.value.dir.children[0]);
  }

  /** `getAssets(importer)`: the icons of the selected category's XHDPI
      folder; none when not initialised, without a category or without that
      folder. */
  function GetAssets(s: State, category: Option<string>): (r: seq<Asset>)
    ensures !IsInitialized(s) || category.None? ==> r == []
    ensures IsInitialized(s) && category.Some? && CategoryFolder(s, category.value).None? ==> r == []
    ensures forall a :: a in r ==> category.Some? && a.category == category.value && a.defaultResolution == R.XHDPI
    ensures IsInitialized(s) && category.Some? && CategoryFolder(s, category.value).Some? ==>
      var files := IconFiles(CategoryFolder(s, category.value).value.children, None, None);
      |r| == |files| && forall i :: 0 <= i < |files| ==> r[i].name == AssetName(files[i].name)
  {
    if !IsInitialized(s) || category.None? then []
    else
      var folder := CategoryFolder(s, category.value);
      if folder.None? then []
      else
        var files := IconFiles(folder.value.children, None, None);
        seq(|files|, i requires 0 <= i < |files| => Asset(AssetName(files[i].name), category.value, R.XHDPI))
  }

  /** Every "ic_<n>_black_48dp.png" in the selected category's XHDPI folder
      is offered, as the icon `n` of that category. */
  lemma GetAssetsOffersBlackIcon(s: State, category: string, n: string, f: Node)
    requires IsInitialized(s) && s.root.Some? && CategoryFolder(s, category).Some?
    requires f in CategoryFolder(s, category).value.children
    requires f.name == IconPrefix + n + BlackSuffix + ".png"
    requires '/' !in n && '\\' !in n
    requires !Contains(n, IconPrefix) && !Contains("_" + n, BlackSuffix)
    ensures Asset(n, category, R.XHDPI) in GetAssets(s, Some(category))
  {
    BlackIconAccepted(n);
    var files := IconFiles(CategoryFolder(s, category).value.children, None, None);
    var r := GetAssets(s, Some(category));
    var i :| 0 <= i < |files| && files[i] == f;
    AssetNameOfBlackIcon(n);
    assert r[i] in r;
  }

  /** "ic_<n>_black_48dp.png" passes the icon-file filter. */
  lemma BlackIconAccepted(n: string)
    requires '/' !in n && '\\' !in n
    ensures AssetAccepted(IconPrefix + n + BlackSuffix + ".png", None, None)
  {
    var stem := IconPrefix + n + BlackSuffix;
    var f := IconPrefix + n + BlackSuffix + ".png";
    assert Paths.RemoveExtension(f) == stem && Paths.IsExtension(f, "png") by {
      assert stem + "." + "png" == f;
      Paths.RemoveExtensionOfAppended(stem, "png");
    }
    assert StartsWith(stem, "ic_") by {
      assert stem[..|IconPrefix|] == IconPrefix;
    }
    assert EndsWith(stem, "_black_48dp") by {
      assert stem[|stem| - |BlackSuffix|..] == BlackSuffix;
    }
  }

  /** The size of one icon file. */
  function FileSize(f: Node): (r: string)
    ensures EndsWith(r, "dp")
  {
    SizeOf(Paths.RemoveExtension(f.name))
  }

  /** The size of a pack file "<...>_<digits>dp.png" is "<digits>dp". */
  lemma FileSizeOfIconFile(p: string, d: string, isDir: bool, cs: seq<Node>)
    requires '/' !in p && '\\' !in p
    requires d != [] && forall i :: 0 <= i < |d| ==> '0' <= d[i] <= '9'
    ensures FileSize(Node(p + "_" + d + "dp.png", isDir, cs)) == d + "dp"
  {
    var stem := p + "_" + d + "dp";
    assert stem + "." + "png" == p + "_" + d + "dp.png";
    assert forall i :: 0 <= i < |stem| ==> stem[i] != '/' && stem[i] != '\\' by {
      forall i | 0 <= i < |stem| ensures stem[i] != '/' && stem[i] != '\\' {
        if i > |p| && i < |p| + 1 + |d| {
          assert stem[i] == d[i - |p| - 1];
        }
      }
    }
    Paths.RemoveExtensionOfAppended(stem, "png");
    SizeOfMaterialName(p, d);
  }

  /** The distinct sizes of some files, in ascending order. */
  function SizesIn(files: seq<Node>): (r: seq<string>)
    ensures StrictlySorted(r)
    ensures forall x :: x in r <==> exists f :: f in files && x == FileSize(f)
  {
    SortedImage(FileSize, files)
  }

  /** `getSizes(importer)`: the distinct sizes of the selected icon's files in
      ascending order; a missing folder fails on its null listing. */
  function GetSizes(s: State, category: Option<string>, asset: Option<Asset>): (r: Result<seq<string>>)
    ensures !IsInitialized(s) || category.None? || asset.None? ==> r == Ok([])
    ensures r.Err? <==> IsInitialized(s) && category.Some? && asset.Some? && CategoryFolder(s, category.value).None?
    ensures r.Err? ==> r.error == NullPointer
    ensures r.Ok? && IsInitialized(s) && category.Some? && asset.Some? ==>
      r.value == SizesIn(IconFiles(CategoryFolder(s, category.value).value.children, Some(asset.value.name), None))
  {
    if !IsInitialized(s) || category.None? || asset.None? then Ok([])
    else
      var folder := CategoryFolder(s, category.value);
      if folder.None? then Err(NullPointer)
      else Ok(SizesIn(IconFiles(folder.value.children, Some(asset.value.name), None)))
  }

  /** The colour of one icon file; fewer than two '_' fields throw. */
  function FileColor(f: Node): (r: Result<string>)
    ensures r.Err? <==> |JavaSplit(Paths.RemoveExtension(f.name), '_')| < 2
    ensures r.Err? ==> r.error == IndexOutOfBounds
  {
    ColorOf(Paths.RemoveExtension(f.name))
  }

  /** The colour of a pack file "<...>_<colour>_<size>.png" is the colour. */
  lemma FileColorOfIconFile(p: string, color: string, size: string, isDir: bool, cs: seq<Node>)
    requires '/' !in p && '\\' !in p && '/' !in color && '\\' !in color
    requires '_' !in color && '_' !in size && '.' !in size && '/' !in size && '\\' !in size && size != []
    requires forall i :: 0 <= i < |color| ==> color[i] > ' '
    ensures FileColor(Node(p + "_" + color + "_" + size + ".png", isDir, cs)) == Ok(color)
  {
    var stem := p + "_" + color + "_" + size;
    assert stem + ".png" == p + "_" + color + "_" + size + ".png";
    assert stem + "." + "png" == stem + ".png";
    Paths.RemoveExtensionOfAppended(stem, "png");
    ColorOfMaterialName(p, color, size);
  }

  /** The colour of a file whose name has one, or "". */
  function ColorOrEmpty(f: Node): string {
    var c := FileColor(f); if c.Ok? then c.value else ""
  }

  /** The distinct colours of some files, in ascending order; a file whose
      name has no colour field throws. */
  function ColorsIn(files: seq<Node>): (r: Result<seq<string>>)
    ensures r.Ok? <==> forall f :: f in files ==> FileColor(f).Ok?
    ensures r.Err? ==> r.error == IndexOutOfBounds
    ensures r.Ok? ==> StrictlySorted(r.value)
    ensures r.Ok? ==> forall x :: x in r.value <==> exists f :: f in files && FileColor(f) == Ok(x)
  {
    if forall f :: f in files ==> FileColor(f).Ok? then Ok(SortedImage(ColorOrEmpty, files))
    else Err(IndexOutOfBounds)
  }

  /** `getColors(importer)`: the distinct colours of the selected icon's files
      in the selected size, in ascending order. */
  function GetColors(s: State, category: Option<string>, asset: Option<Asset>, size: Option<string>): (r: Result<seq<string>>)
    ensures !IsInitialized(s) || category.None? || asset.None? || size.None? ==> r == Ok([])
    ensures IsInitialized(s) && category.Some? && asset.Some? && size.Some? ==>
      var folder := CategoryFolder(s, category.value);
      && (folder.None? ==> r == Err(NullPointer))
      && (folder.Some? ==> r == ColorsIn(IconFiles(folder.value.children, Some(asset.value.name), size)))
  {
    if !IsInitialized(s) || category.None? || asset.None? || size.None? then Ok([])
    else
      var folder := CategoryFolder(s, category.value);
      if folder.None? then Err(NullPointer)
      else ColorsIn(IconFiles(folder.value.children, Some(asset.value.name), size))
  }

  /** `isSupportedResolution(resolution)`: every density but LDPI and TVDPI. */
  function IsSupportedResolution(d: R.Resolution): (b: bool)
    ensures b <==> d != R.LDPI && d != R.TVDPI
  {
    assert d != R.LDPI && d != R.TVDPI ==> d.MDPI? || d.HDPI? || d.XHDPI? || d.XXHDPI? || d.XXXHDPI?;
    d in Supported
  }

  /** `getImageFile(asset, color, size, resolution)`:
      "<path>/<category>/drawable-<NAME>/ic_<name>_<colour>_<size>.png", with
      the density's upper-case name. The imported `model.Resolution` declares
      no `getName()`; the model reads the call as the constant's name, which
      is also what the earlier enum's `getName()` returns. */
  function ImageFile(s: State, asset: Asset, color: string, size: string, d: R.Resolution): (f: string)
    ensures f == Paths.PathChild(GetPath(s), Icons.RasterPath(asset.category, R.Name(d), "ic_" + asset.name, color, size))
    ensures EndsWith(f, "_" + color + "_" + size + ".png")
  {
    var local := Icons.RasterPath(asset.category, R.Name(d), "ic_" + asset.name, color, size);
    var f := Paths.PathChild(GetPath(s), local);
    EndsWithTrans(f, "/" + local, local);
    EndsWithTrans(f, local, "_" + color + "_" + size + ".png");
    f
  }

  /** `getImageFile(asset)`: black, 24dp, MDPI. */
  function ImageFileDefault(s: State, asset: Asset): (f: string)
    ensures f == ImageFile(s, asset, "black", "24dp", R.MDPI)
  {
    ImageFile(s, asset, "black", "24dp", R.MDPI)
  }

  /** Each density of an icon has its own file. */
  lemma ImageFileInjective(s: State, asset: Asset, color: string, size: string, d1: R.Resolution, d2: R.Resolution)
    requires ImageFile(s, asset, color, size, d1) == ImageFile(s, asset, color, size, d2)
    ensures d1 == d2
  {
    Paths.PathChildInjective(GetPath(s), Icons.RasterPath(asset.category, R.Name(d1), "ic_" + asset.name, color, size),
                             Icons.RasterPath(asset.category, R.Name(d2), "ic_" + asset.name, color, size));
    NameHasNoSlash(d1);
    NameHasNoSlash(d2);
    Icons.RasterPathLabelInjective(asset.category, R.Name(d1), R.Name(d2), "ic_" + asset.name, color, size);
    R.LabelIsLowerName(d1);
    R.LabelIsLowerName(d2);
  }

  lemma NameHasNoSlash(d: R.Resolution)
    ensures '/' !in R.Name(d)
  {
  }
}

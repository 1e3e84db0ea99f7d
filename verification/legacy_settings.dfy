/** The earlier generation's settings helper (settings/SettingsHelper.java):
    one asset path per icon pack in the application properties, with a
    migration from the single legacy key, and two per-project values. The
    icon-pack enum is represented by its text and whether it is the Android
    icons pack. */
module LegacySettings {
  import opened Wrappers
  import opened Strings
  import opened Store

  datatype Pack = Pack(text: string, isAndroidIcons: bool)

  const LegacyPath := "assetPath"
  const ResRoot := "resourcesRoot"
  const LastFolderRoot := "lastFolderRoot"

  /** `getAssetPathKey(pack)`: `PATH` "assetPath_%s" filled with the pack's text. */
  function AssetPathKey(pack: Pack): (k: string)
    ensures k != LegacyPath && k != ResRoot && k != LastFolderRoot
    ensures StartsWith(k, "assetPath_") && k[|"assetPath_"|..] == pack.text
  {
    var k := "assetPath_" + pack.text;
    assert k[..10] == "assetPath_";
    assert k[0] == 'a' && k[9] == '_' && |k| >= 10;
    assert ResRoot[0] == 'r' && LastFolderRoot[0] == 'l';
    k
  }

  /** Packs with different texts use different keys. */
  lemma AssetPathKeyInjective(a: Pack, b: Pack)
    requires AssetPathKey(a) == AssetPathKey(b)
    ensures a.text == b.text
  {
  }

  /** `saveAssetPath(pack, url)`. */
  function SaveAssetPath(p: Properties, pack: Pack, url: Option<string>): (q: Properties)
    ensures GetValue(q, AssetPathKey(pack)) == url
    ensures OnlyChanged(p, q, AssetPathKey(pack))
  {
    SetValue(p, AssetPathKey(pack), url)
  }

  /** `getAssetPathString(pack)`: the stored path and the properties after
      the call. For the Android icons pack a legacy value wins and is copied
      under the pack's key; the legacy key itself is kept. */
  function GetAssetPathString(p: Properties, pack: Pack): (r: (Properties, Option<string>))
    ensures pack.isAndroidIcons && IsValueSet(p, LegacyPath) ==>
      r.1 == Some(p[LegacyPath]) && r.0 == p[AssetPathKey(pack) := p[LegacyPath]]
    ensures !(pack.isAndroidIcons && IsValueSet(p, LegacyPath)) ==>
      r == (p, GetValue(p, AssetPathKey(pack)))
  {
    var legacy := GetValue(p, LegacyPath);
    if legacy.Some? && pack.isAndroidIcons then
      var q := SaveAssetPath(Unset(p, AssetPathKey(pack)), pack, legacy);
      assert q == p[AssetPathKey(pack) := p[LegacyPath]];
      (q, legacy)
    else
      (p, GetValue(p, AssetPathKey(pack)))
  }

  /** Without a legacy value that applies, a saved path is read back. */
  lemma SaveThenGet(p: Properties, pack: Pack, url: Option<string>)
    requires !(pack.isAndroidIcons && IsValueSet(p, LegacyPath))
    ensures GetAssetPathString(SaveAssetPath(p, pack, url), pack).1 == url
  {
    assert GetValue(SaveAssetPath(p, pack, url), LegacyPath) == GetValue(p, LegacyPath);
  }

  /** A legacy value keeps overriding whatever is saved for the Android icons
      pack later, because it is never removed. */
  lemma LegacyOverrides(p: Properties, pack: Pack, url: Option<string>)
    requires pack.isAndroidIcons && IsValueSet(p, LegacyPath)
    ensures GetAssetPathString(SaveAssetPath(p, pack, url), pack).1 == Some(p[LegacyPath])
  {
    assert GetValue(SaveAssetPath(p, pack, url), LegacyPath) == GetValue(p, LegacyPath);
  }

  /** `clearAssetPath(pack)`. */
  function ClearAssetPath(p: Properties, pack: Pack): (q: Properties)
    ensures !IsValueSet(q, AssetPathKey(pack)) && OnlyChanged(p, q, AssetPathKey(pack))
  {
    Unset(p, AssetPathKey(pack))
  }

  /** After clearing, the path reads as null unless a legacy value applies. */
  lemma ClearThenGet(p: Properties, pack: Pack)
    requires !(pack.isAndroidIcons && IsValueSet(p, LegacyPath))
    ensures GetAssetPathString(ClearAssetPath(p, pack), pack).1 == None
  {
    assert GetValue(ClearAssetPath(p, pack), LegacyPath) == GetValue(p, LegacyPath);
  }

  /** `saveResRootForProject` / `getResRootStringForProject` and
      `saveLastImageFolder` / `getLastImageFolder` on the project's properties. */
  function SaveResRootForProject(p: Properties, url: Option<string>): (q: Properties)
    ensures GetValue(q, ResRoot) == url && OnlyChanged(p, q, ResRoot)
  {
    SetValue(p, ResRoot, url)
  }

  function SaveLastImageFolder(p: Properties, url: Option<string>): (q: Properties)
    ensures GetValue(q, LastFolderRoot) == url && OnlyChanged(p, q, LastFolderRoot)
  {
    SetValue(p, LastFolderRoot, url)
  }

  /** The two project values do not disturb each other. */
  lemma ProjectValuesIndependent(p: Properties, root: Option<string>, folder: Option<string>)
    ensures GetValue(SaveLastImageFolder(SaveResRootForProject(p, root), folder), ResRoot) == root
    ensures GetValue(SaveResRootForProject(SaveLastImageFolder(p, folder), root), LastFolderRoot) == folder
  {
    assert ResRoot != LastFolderRoot;
  }
}

/** File-name handling: Python's `os.path.splitext` / `os.path.join`,
    Apache Commons IO's `FilenameUtils` and `java.io.File(parent, child)`. */
module Paths {
  import opened Strings

  /** Joins a directory and an entry name the way `os.path.join(a, b)` and
      `new File(a, b)` do for a relative `b`: one separator between them. */
  function PathChild(parent: string, name: string): (r: string)
    ensures EndsWith(r, "/" + name)
  {
    if EndsWith(parent, "/") then
      assert parent + name == parent[..|parent| - 1] + ("/" + name);
      parent + name
    else parent + "/" + name
  }

  /** Children of one directory are the same path only if their names are. */
  lemma PathChildInjective(parent: string, x: string, y: string)
    requires PathChild(parent, x) == PathChild(parent, y)
    ensures x == y
  {
    if EndsWith(parent, "/") {
      DropCommonPrefix(parent, x, y);
    } else {
      DropCommonPrefix(parent + "/", x, y);
    }
  }

  /** `File.getName()`: the text after the last '/'. */
  function FileName(path: string): (r: string)
    ensures '/' !in r
    ensures EndsWith(path, r)
  {
    var i := LastIndexOf(path, '/');
    var r := path[i + 1..];
    assert forall j :: 0 <= j < |r| ==> r[j] != '/' by {
      forall j | 0 <= j < |r| ensures r[j] != '/' {
        assert r[j] == path[i + 1 + j];
      }
    }
    r
  }

  /** Commons IO `indexOfExtension`: the last '.' unless a separator follows it. */
  function ExtensionIndex(name: string): (i: int)
    ensures -1 <= i < |name|
    ensures i >= 0 ==> name[i] == '.' && '.' !in name[i + 1..]
  {
    var dot := LastIndexOf(name, '.');
    var sep := if LastIndexOf(name, '/') < LastIndexOf(name, '\\') then LastIndexOf(name, '\\') else LastIndexOf(name, '/');
    if sep > dot then -1 else dot
  }

  /** Commons IO `FilenameUtils.removeExtension`. */
  function RemoveExtension(name: string): string {
    var i := ExtensionIndex(name);
    if i == -1 then name else name[..i]
  }

  /** Commons IO `FilenameUtils.getExtension`. */
  function GetExtension(name: string): string {
    var i := ExtensionIndex(name);
    if i == -1 then "" else name[i + 1..]
  }

  /** Commons IO `FilenameUtils.isExtension(name, ext)`: a case-sensitive match. */
  predicate IsExtension(name: string, ext: string) {
    GetExtension(name) == ext
  }

  /** Removing the extension and putting it back gives the name again,
      and what was removed holds no further dot. */
  lemma ExtensionRoundTrip(name: string)
    ensures ExtensionIndex(name) == -1 ==> RemoveExtension(name) == name && GetExtension(name) == ""
    ensures ExtensionIndex(name) >= 0 ==>
      RemoveExtension(name) + "." + GetExtension(name) == name && '.' !in GetExtension(name)
  {
    var i := ExtensionIndex(name);
    if i >= 0 {
      assert name == name[..i] + [name[i]] + name[i + 1..];
    }
  }

  /** A name built as `stem + "." + ext`, with no separator anywhere and no
      dot in `ext`, loses exactly `"." + ext`. */
  lemma RemoveExtensionOfAppended(stem: string, ext: string)
    requires '/' !in stem && '\\' !in stem && '/' !in ext && '\\' !in ext && '.' !in ext
    ensures RemoveExtension(stem + "." + ext) == stem
    ensures GetExtension(stem + "." + ext) == ext
  {
    var name := stem + "." + ext;
    assert name[|stem|] == '.';
    assert forall j :: |stem| < j < |name| ==> name[j] == ext[j - |stem| - 1];
    LastIndexOfAt(name, '.', |stem|);
    assert '/' !in name && '\\' !in name;
    assert name[..|stem|] == stem && name[|stem| + 1..] == ext;
  }

  /** Python's `os.path.splitext(p)[0]` on a name without '/': cuts at the last
      dot unless every character before that dot is itself a dot. */
  function SplitExtRoot(p: string): (root: string)
    ensures root == p || (|root| < |p| && p[..|root|] == root && p[|root|] == '.' && '.' !in p[|root| + 1..])
  {
    var dot := LastIndexOf(p, '.');
    if dot > LastIndexOf(p, '/') && exists k :: LastIndexOf(p, '/') < k < dot && p[k] != '.' then p[..dot]
    else p
  }

  /** `splitext(root + ".png")[0] == root` whenever `root` has a character that
      is neither a dot nor a separator and holds no separator. */
  lemma SplitExtRootOfPng(root: string, k: nat)
    requires k < |root| && root[k] != '.' && '/' !in root
    ensures SplitExtRoot(root + ".png") == root
  {
    var p := root + ".png";
    assert p[|root|] == '.' && p[|root| + 1..] == "png";
    assert LastIndexOf(p, '.') == |root|;
    assert '/' !in p;
    assert p[k] == root[k];
    assert p[..|root|] == root;
  }
}

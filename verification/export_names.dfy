/** Export names and import descriptions of the earlier plugin generation
    (util/ExportNameUtils.java). An Android drawable name may only hold lower
    case letters, digits, '_' and '.'; the sanitiser turns any file name into
    one, keeping parentheses because they sit inside its character class. */
module ExportNames {
  import opened Wrappers
  import opened Strings
  import Paths
  import LegacyDensities
  import LegacyImageInfo

  /** A character of the class `[a-z0-9_.]`. */
  predicate Plain(c: char) {
    'a' <= c <= 'z' || '0' <= c <= '9' || c == '_' || c == '.'
  }

  /** A character of the class `[(a-z0-9_.)]`, which the replacement keeps. */
  predicate Kept(c: char) {
    Plain(c) || c == '(' || c == ')'
  }

  predicate AllPlain(s: string) {
    forall i :: 0 <= i < |s| ==> Plain(s[i])
  }

  /** The name after `toLowerCase()` and `replaceAll("([^(a-z0-9_.)])", "_")`. */
  function Replaced(name: string): (r: string)
    ensures |r| == |name|
    ensures forall i :: 0 <= i < |r| ==> Kept(r[i])
    ensures forall i :: 0 <= i < |r| ==> (Kept(LowerChar(name[i])) <==> r[i] == LowerChar(name[i]))
    ensures forall i :: 0 <= i < |r| ==> (!Kept(LowerChar(name[i])) <==> r[i] == '_' && name[i] != '_')
  {
    seq(|name|, i requires 0 <= i < |name| =>
      if Kept(LowerChar(name[i])) then LowerChar(name[i]) else '_')
  }

  /** The sanitiser applied to the name without its extension: a name that is
      already plain is kept, anything else is lower-cased and has every
      character outside the kept class replaced by '_'. */
  function Sanitize(name: string): (r: string)
    ensures |r| == |name|
    ensures AllPlain(name) ==> r == name
    ensures !AllPlain(name) ==> r == Replaced(name)
    ensures forall i :: 0 <= i < |r| ==> Kept(r[i])
    ensures forall i :: 0 <= i < |r| && Kept(name[i]) ==> r[i] == name[i]
  {
    if AllPlain(name) then name else Replaced(name)
  }

  /** `getExportNameFromFilename(filename)`. */
  function GetExportNameFromFilename(filename: string): (r: string)
    ensures |r| == |Paths.RemoveExtension(filename)|
    ensures forall i :: 0 <= i < |r| ==> Kept(r[i])
    ensures AllPlain(Paths.RemoveExtension(filename)) ==> r == Paths.RemoveExtension(filename)
  {
    Sanitize(Paths.RemoveExtension(filename))
  }

  /** Sanitising a sanitised name changes nothing: its characters are all kept,
      so the replacement, if it runs, leaves each of them in place. */
  lemma SanitizeIdempotent(name: string)
    ensures Sanitize(Sanitize(name)) == Sanitize(name)
  {
    var s := Sanitize(name);
    if !AllPlain(s) {
      forall i | 0 <= i < |s| ensures Replaced(s)[i] == s[i] {
        assert Kept(s[i]) && LowerChar(s[i]) == s[i];
      }
    }
  }

  /** Upper-case ASCII letters come out as their lower-case forms, and other
      characters outside the kept class come out as '_'. */
  lemma SanitizeLetters(name: string, i: int)
    requires 0 <= i < |name|
    ensures 'A' <= name[i] <= 'Z' ==> Sanitize(name)[i] == LowerChar(name[i])
    ensures !Kept(LowerChar(name[i])) ==> Sanitize(name)[i] == '_'
  {
    if 'A' <= name[i] <= 'Z' {
      assert !Plain(name[i]);
    }
  }

  // ---- Import descriptions ------------------------------------------------

  /** The `getName()` of each entry's image file; a missing file throws. */
  function FileNames(infos: seq<LegacyImageInfo.ImageInformation>): (r: Result<seq<string>>)
    ensures r.Err? <==> exists i :: 0 <= i < |infos| && infos[i].imageFile.None?
    ensures r.Err? ==> r.error == NullPointer
    ensures r.Ok? ==> |r.value| == |infos|
    ensures r.Ok? ==> forall i :: 0 <= i < |infos| ==> r.value[i] == Paths.FileName(infos[i].imageFile.value)
    decreases |infos|
  {
    if infos == [] then Ok([])
    else if infos[0].imageFile.None? then Err(NullPointer)
    else
      var rest := FileNames(infos[1..]);
      assert forall i :: 1 <= i < |infos| ==> infos[i] == infos[1..][i - 1];
      if rest.Err? then rest
      else Ok([Paths.FileName(infos[0].imageFile.value)] + rest.value)
  }

  /** The upper-case density name of each entry, in list order. */
  function ResolutionNames(infos: seq<LegacyImageInfo.ImageInformation>): (r: seq<string>)
    ensures |r| == |infos|
    ensures forall i :: 0 <= i < |infos| ==> r[i] == LegacyDensities.GetName(infos[i].resolution)
  {
    seq(|infos|, i requires 0 <= i < |infos| => LegacyDensities.GetName(infos[i].resolution))
  }

  /** `getExportDescription(list)`. With a single distinct file name: that
      name and every entry's density; otherwise every distinct file name
      (a hash set's order, modelled as ascending order) and the first entry's
      export name. An empty list fails on `get(0)`. */
  function Description(infos: seq<LegacyImageInfo.ImageInformation>): (r: Result<string>)
    ensures r.Err? <==> infos == [] || exists i :: 0 <= i < |infos| && infos[i].imageFile.None?
    ensures r.Ok? ==> StartsWith(r.value, "Import of ")
  {
    var names :- FileNames(infos);
    if |Elems(names)| == 1 then
      Ok("Import of " + names[0] + (if |infos| == 1 then " in resolution " else " in resolutions ")
         + Join(ResolutionNames(infos), ", "))
    else if infos == [] then Err(IndexOutOfBounds)
    else Ok(SeveralFiles(SortedSet(names), infos[0].exportName))
  }

  /** One entry: its file name and its density. */
  lemma DescriptionOfOne(info: LegacyImageInfo.ImageInformation, file: string)
    requires info.imageFile == Some(file)
    ensures Description([info]) ==
      Ok("Import of " + Paths.FileName(file) + " in resolution " + LegacyDensities.GetName(info.resolution))
  {
    var names := FileNames([info]).value;
    assert names == [Paths.FileName(file)];
    assert Elems(names) == {Paths.FileName(file)};
  }

  /** Several entries of one file: the file name once, then the densities in
      list order, separated by ", ". */
  lemma DescriptionOfOneFile(infos: seq<LegacyImageInfo.ImageInformation>, file: string)
    requires |infos| >= 2
    requires forall i :: 0 <= i < |infos| ==> infos[i].imageFile == Some(file)
    ensures Description(infos) ==
      Ok("Import of " + Paths.FileName(file) + " in resolutions " + Join(ResolutionNames(infos), ", "))
  {
    var names := FileNames(infos).value;
    assert Elems(names) == {Paths.FileName(file)} by {
      assert names[0] in Elems(names);
    }
  }

  /** The description of several files: the listed names and the export name. */
  function SeveralFiles(listed: seq<string>, exportName: Option<string>): (d: string)
    ensures StartsWith(d, "Import of ") && EndsWith(d, " as " + Text(exportName))
  {
    var d := "Import of " + Join(listed, ", ") + " as " + Text(exportName);
    assert d == "Import of " + (Join(listed, ", ") + " as " + Text(exportName));
    assert d == ("Import of " + Join(listed, ", ")) + (" as " + Text(exportName));
    d
  }

  /** Entries of two different file names take the several-files form. */
  lemma SeveralFilesChosen(infos: seq<LegacyImageInfo.ImageInformation>, i: int, j: int)
    requires 0 <= i < |infos| && 0 <= j < |infos|
    requires forall k :: 0 <= k < |infos| ==> infos[k].imageFile.Some?
    requires Paths.FileName(infos[i].imageFile.value) != Paths.FileName(infos[j].imageFile.value)
    ensures FileNames(infos).Ok?
    ensures Description(infos) == Ok(SeveralFiles(SortedSet(FileNames(infos).value), infos[0].exportName))
  {
    var names := FileNames(infos).value;
    assert names[i] in Elems(names) && names[j] in Elems(names);
    if |Elems(names)| == 1 {
      SingletonHasOne(Elems(names), names[i], names[j]);
    }
  }

  /** Entries of several files: the description ends with " as " and the
      first entry's export name, and lists each distinct file name once. The
      names come in ascending order, which stands in for the hash set's
      order. */
  lemma DescriptionOfSeveralFiles(infos: seq<LegacyImageInfo.ImageInformation>, i: int, j: int)
    requires 0 <= i < |infos| && 0 <= j < |infos|
    requires forall k :: 0 <= k < |infos| ==> infos[k].imageFile.Some?
    requires Paths.FileName(infos[i].imageFile.value) != Paths.FileName(infos[j].imageFile.value)
    ensures Description(infos).Ok?
    ensures EndsWith(Description(infos).value, " as " + Text(infos[0].exportName))
    ensures exists listed :: (StrictlySorted(listed)
      && (forall k :: 0 <= k < |infos| ==> Paths.FileName(infos[k].imageFile.value) in listed)
      && (forall x :: x in listed ==> exists k :: 0 <= k < |infos| && x == Paths.FileName(infos[k].imageFile.value))
      && Description(infos).value == SeveralFiles(listed, infos[0].exportName))
  {
    SeveralFilesChosen(infos, i, j);
    var names := FileNames(infos).value;
    var listed := SortedSet(names);
    SortedSetSpec(names);
    forall k | 0 <= k < |infos| ensures Paths.FileName(infos[k].imageFile.value) in listed {
      assert names[k] in Elems(names);
      assert names[k] in Elems(listed);
    }
    forall x | x in listed ensures exists k :: 0 <= k < |infos| && x == Paths.FileName(infos[k].imageFile.value) {
      assert x in Elems(listed);
      assert x in Elems(names);
      var k :| 0 <= k < |names| && names[k] == x;
    }
  }

  lemma SingletonHasOne(s: set<string>, x: string, y: string)
    requires |s| == 1 && x in s && y in s
    ensures x == y
  {
    if x != y {
      assert {x, y} <= s;
      assert |{x, y}| == 2;
      SubsetSize({x, y}, s);
    }
  }

  lemma SubsetSize(a: set<string>, b: set<string>)
    requires a <= b
    ensures |a| <= |b|
  {
    assert b == a + (b - a);
  }
}

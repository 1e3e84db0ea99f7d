/** The batch-scale importer's list of source images
    (controllers/batchscale/BatchScaleImporterController.java): for every
    source file its image entries and its source resolution, and the files in
    the order they were added, without duplicates. A file is identified by its
    path string; `getAbsolutePath()`'s normalisation is not modelled. */
module BatchScale {
  import opened Wrappers
  import opened Strings
  import opened Densities
  import Info = ImageInfo

  datatype State = State(
    images: map<string, seq<Info.ImageInformation>>,
    sourceResolutions: map<string, Resolution>,
    sourceFiles: seq<string>)

  /** The constructor: nothing added yet. */
  const Empty := State(map[], map[], [])

  predicate Distinct(xs: seq<string>) {
    forall i, j :: 0 <= i < j < |xs| ==> xs[i] != xs[j]
  }

  /** The controller's invariant: the three collections describe the same
      files, the list has no duplicate, and every file has an entry. */
  predicate Valid(s: State) {
    && Distinct(s.sourceFiles)
    && s.images.Keys == Elems(s.sourceFiles)
    && s.sourceResolutions.Keys == Elems(s.sourceFiles)
    && (forall f :: f in s.images ==> |s.images[f]| > 0)
  }

  lemma EmptyIsValid()
    ensures Valid(Empty)
  {
  }

  /** The list's overridden `add`: a file already present is not added again. */
  function AddIfAbsent(xs: seq<string>, x: string): (r: seq<string>)
    ensures Elems(r) == Elems(xs) + {x}
    ensures Distinct(xs) ==> Distinct(r)
    ensures x in xs ==> r == xs
    ensures x !in xs ==> |r| == |xs| + 1 && r[..|xs|] == xs
  {
    if x in xs then xs else xs + [x]
  }

  /** `addImage(sourceResolution, entries)`: keyed by the first entry's file.
      A null or empty list changes nothing; a first entry without a file
      throws. */
  function AddImage(s: State, res: Resolution, entries: Option<seq<Info.ImageInformation>>): (r: Result<State>)
    ensures (entries.None? || entries.value == []) ==> r == Ok(s)
    ensures r.Err? <==> entries.Some? && entries.value != [] && entries.value[0].imageFile.None?
    ensures r.Err? ==> r.error == NullPointer
    ensures r.Ok? && Valid(s) ==> Valid(r.value)
    ensures r.Ok? && entries.Some? && entries.value != [] ==>
      var p := entries.value[0].imageFile.value;
      && r.value.images == s.images[p := entries.value]
      && r.value.sourceResolutions == s.sourceResolutions[p := res]
      && (p in s.sourceFiles ==> r.value.sourceFiles == s.sourceFiles)
      && (p !in s.sourceFiles ==> r.value.sourceFiles == s.sourceFiles + [p])
  {
    if entries.None? || entries.value == [] then Ok(s)
    else if entries.value[0].imageFile.None? then Err(NullPointer)
    else
      var p := entries.value[0].imageFile.value;
      Ok(State(s.images[p := entries.value], s.sourceResolutions[p := res], AddIfAbsent(s.sourceFiles, p)))
  }

  /** `getImageCount()`. */
  function Count(s: State): nat {
    |s.sourceFiles|
  }

  /** `getImage(index)`: null outside the list, otherwise the first entry of
      that file; the lookups fail when the invariant does not hold. */
  function GetImage(s: State, index: int): (r: Result<Option<Info.ImageInformation>>)
    ensures r == Ok(None) <==> !(0 <= index < Count(s))
    ensures Valid(s) ==> r.Ok?
    ensures r.Ok? && r.value.Some? ==>
      && 0 <= index < Count(s) && s.sourceFiles[index] in s.images && |s.images[s.sourceFiles[index]]| > 0
      && r.value.value == s.images[s.sourceFiles[index]][0]
  {
    if index >= |s.sourceFiles| || 0 > index then Ok(None)
    else if s.sourceFiles[index] !in s.images then Err(NullPointer)
    else if |s.images[s.sourceFiles[index]]| == 0 then Err(IndexOutOfBounds)
    else Ok(Some(s.images[s.sourceFiles[index]][0]))
  }

  /** Adding a file that is already listed replaces its entries and source
      resolution but keeps its position and the count. */
  lemma ReAddKeepsPosition(s: State, res: Resolution, entries: seq<Info.ImageInformation>, i: int)
    requires Valid(s) && 0 <= i < Count(s)
    requires entries != [] && entries[0].imageFile == Some(s.sourceFiles[i])
    ensures AddImage(s, res, Some(entries)).Ok?
    ensures Count(AddImage(s, res, Some(entries)).value) == Count(s)
    ensures GetImage(AddImage(s, res, Some(entries)).value, i) == Ok(Some(entries[0]))
    ensures AddImage(s, res, Some(entries)).value.sourceResolutions[s.sourceFiles[i]] == res
  {
  }

  /** `List.remove(Object)`: drops the first occurrence, if any. */
  function RemoveFirst(xs: seq<string>, x: string): (r: seq<string>)
    ensures x !in xs ==> r == xs
    ensures x in xs ==> |r| == |xs| - 1
    ensures Elems(r) <= Elems(xs)
    ensures Distinct(xs) ==> Distinct(r) && Elems(r) == Elems(xs) - {x}
    decreases |xs|
  {
    if xs == [] then []
    else
      assert Elems(xs) == {xs[0]} + Elems(xs[1..]) by {
        assert xs == [xs[0]] + xs[1..];
      }
      assert Distinct(xs) ==> Distinct(xs[1..]) && xs[0] !in xs[1..];
      if xs[0] == x then xs[1..]
      else
        var rest := RemoveFirst(xs[1..], x);
        assert Elems([xs[0]] + rest) == {xs[0]} + Elems(rest) by {
          assert forall y :: y in [xs[0]] + rest <==> y == xs[0] || y in rest;
        }
        assert Distinct(xs) ==> xs[0] !in Elems(rest);
        [xs[0]] + rest
  }

  /** The occurrence dropped is the first one, and everything around it
      keeps its order. */
  lemma {:induction false} RemoveFirstSplits(xs: seq<string>, x: string, i: nat)
    requires i < |xs| && xs[i] == x && x !in xs[..i]
    ensures RemoveFirst(xs, x) == xs[..i] + xs[i + 1..]
    decreases i
  {
    if i == 0 {
      assert xs[..0] + xs[1..] == xs[1..];
    } else {
      assert xs[0] != x by { assert xs[0] in xs[..i]; }
      assert xs[1..][..i - 1] == xs[1..i];
      RemoveFirstSplits(xs[1..], x, i - 1);
      assert xs[..i] == [xs[0]] + xs[1..i];
      assert xs[1..][i..] == xs[i + 1..];
    }
  }

  /** `removeImage(path)`: an unknown path changes nothing; otherwise the path
      leaves all three collections. */
  function RemoveImage(s: State, p: string): (r: State)
    ensures p !in s.images && p !in s.sourceFiles ==> r == s
    ensures p !in r.images
    ensures Valid(s) ==> Valid(r) && p !in r.sourceResolutions
    ensures Valid(s) && p in s.sourceFiles ==> Count(r) == Count(s) - 1 && p !in r.sourceFiles
    ensures forall f :: f != p && f in s.images ==> f in r.images && r.images[f] == s.images[f]
  {
    if p !in s.images && p !in s.sourceFiles then s
    else State(s.images - {p}, s.sourceResolutions - {p}, RemoveFirst(s.sourceFiles, p))
  }

  /** `removeImages(indices)`: each index is read against the list as it is
      after the previous removals, and the first index outside the list ends
      the loop. */
  function RemoveImages(s: State, indices: seq<int>): (r: State)
    ensures Valid(s) ==> Valid(r)
    ensures Valid(s) ==> Count(r) <= Count(s)
    decreases |indices|
  {
    if indices == [] then s
    else if indices[0] >= |s.sourceFiles| || 0 > indices[0] then s
    else RemoveImages(RemoveImage(s, s.sourceFiles[indices[0]]), indices[1..])
  }

  /** Removing a list of valid indices removes exactly one file per index,
      and an out-of-range index stops the loop with the state it reached. */
  lemma {:induction false} RemoveImagesCount(s: State, indices: seq<int>)
    requires Valid(s)
    requires forall k :: 0 <= k < |indices| ==> 0 <= indices[k] < Count(s) - k
    ensures Count(RemoveImages(s, indices)) == Count(s) - |indices|
    decreases |indices|
  {
    if indices != [] {
      var s' := RemoveImage(s, s.sourceFiles[indices[0]]);
      assert Count(s') == Count(s) - 1;
      forall k | 0 <= k < |indices[1..]| ensures 0 <= indices[1..][k] < Count(s') - k {
        assert indices[1..][k] == indices[k + 1];
      }
      RemoveImagesCount(s', indices[1..]);
    }
  }

  /** Indices shift: removing index 0 twice from [a, b, c] removes a and b. */
  lemma RemoveImagesShifts(a: string, b: string, c: string, ea: seq<Info.ImageInformation>,
                           eb: seq<Info.ImageInformation>, ec: seq<Info.ImageInformation>, r: Resolution)
    requires a != b && b != c && a != c && ea != [] && eb != [] && ec != []
    ensures RemoveImages(State(map[a := ea, b := eb, c := ec], map[a := r, b := r, c := r], [a, b, c]), [0, 0]).sourceFiles == [c]
  {
    var s := State(map[a := ea, b := eb, c := ec], map[a := r, b := r, c := r], [a, b, c]);
    var s1 := RemoveImage(s, a);
    assert s1.sourceFiles == [b, c];
    var s2 := RemoveImage(s1, b);
    assert s2.sourceFiles == [c];
    assert RemoveImages(s, [0, 0]) == RemoveImages(s1, [0]);
    assert RemoveImages(s1, [0]) == RemoveImages(s2, []);
  }

  /** `getTargetResolutions(info)`: the target resolutions of the entries
      stored for the entry's file, in order; none for an unknown file. */
  function GetTargetResolutions(s: State, info: Info.ImageInformation): (r: Result<seq<Resolution>>)
    ensures r.Err? <==> info.imageFile.None?
    ensures r.Ok? && info.imageFile.value !in s.images ==> r.value == []
    ensures r.Ok? && info.imageFile.value in s.images ==>
      |r.value| == |s.images[info.imageFile.value]| &&
      forall k :: 0 <= k < |r.value| ==> r.value[k] == s.images[info.imageFile.value][k].targetResolution
  {
    if info.imageFile.None? then Err(NullPointer)
    else if info.imageFile.value !in s.images then Ok([])
    else
      var entries := s.images[info.imageFile.value];
      Ok(seq(|entries|, k requires 0 <= k < |entries| => entries[k].targetResolution))
  }

  /** The entry lists of `files`, in list order; an unknown file
      contributes none. */
  function EntryLists(images: map<string, seq<Info.ImageInformation>>, files: seq<string>): seq<seq<Info.ImageInformation>> {
    seq(|files|, k requires 0 <= k < |files| => if files[k] in images then images[files[k]] else [])
  }

  /** The export task's entries for the files from `files` on: the entry
      lists of the files one after the other, in list order; a file without
      an entry list fails. */
  function TaskOf(images: map<string, seq<Info.ImageInformation>>, files: seq<string>): (r: Result<seq<Info.ImageInformation>>)
    ensures r.Ok? <==> Elems(files) <= images.Keys
    ensures r.Err? ==> r.error == NullPointer
    ensures r.Ok? ==> r.value == Concat(EntryLists(images, files))
    ensures r.Ok? ==> forall k, j :: 0 <= k < |files| && 0 <= j < |images[files[k]]| ==> images[files[k]][j] in r.value
    ensures r.Ok? ==> forall x :: x in r.value ==> exists k :: 0 <= k < |files| && x in images[files[k]]
    decreases |files|
  {
    if files == [] then Ok([])
    else if files[0] !in images then Err(NullPointer)
    else
      var rest := TaskOf(images, files[1..]);
      assert Elems(files) == {files[0]} + Elems(files[1..]) by {
        assert files == [files[0]] + files[1..];
      }
      if rest.Err? then rest
      else
        assert forall k :: 1 <= k < |files| ==> files[k] == files[1..][k - 1];
        assert EntryLists(images, files)[1..] == EntryLists(images, files[1..]);
        Ok(images[files[0]] + rest.value)
  }

  /** `getExportTask(project)`: every entry of every listed file, grouped by
      file in list order. */
  function GetExportTask(s: State): (r: Result<seq<Info.ImageInformation>>)
    ensures Valid(s) ==> r.Ok?
    ensures r.Ok? <==> Elems(s.sourceFiles) <= s.images.Keys
    ensures r.Ok? ==> r.value == Concat(EntryLists(s.images, s.sourceFiles))
    ensures r.Ok? ==> forall f, j :: f in s.sourceFiles && f in s.images && 0 <= j < |s.images[f]| ==> s.images[f][j] in r.value
    ensures r.Ok? ==> forall x :: x in r.value ==> exists f :: f in s.sourceFiles && f in s.images && x in s.images[f]
  {
    TaskOf(s.images, s.sourceFiles)
  }

  /** In the export task the entries of the k-th listed file sit together,
      in their stored order, right after those of the files listed before
      it. */
  lemma ExportTaskGrouped(s: State, k: nat)
    requires Valid(s) && k < Count(s)
    ensures GetExportTask(s).Ok?
    ensures var before := Concat(EntryLists(s.images, s.sourceFiles[..k]));
            var own := s.images[s.sourceFiles[k]];
            && |before| + |own| <= |GetExportTask(s).value|
            && GetExportTask(s).value[..|before|] == before
            && GetExportTask(s).value[|before|..|before| + |own|] == own
  {
    var lists := EntryLists(s.images, s.sourceFiles);
    var own := s.images[s.sourceFiles[k]];
    var front := EntryLists(s.images, s.sourceFiles[..k]);
    assert lists[..k] == front;
    assert lists[k] == own by {
      assert s.sourceFiles[k] in Elems(s.sourceFiles);
    }
    assert lists == front + [own] + lists[k + 1..] by {
      assert lists == lists[..k] + [lists[k]] + lists[k + 1..];
    }
    ConcatAppend(front + [own], lists[k + 1..]);
    ConcatAppend(front, [own]);
    assert Concat([own]) == own + Concat([]);
  }
}

/** The overwrite/skip decision taken when an imported image meets a file of
    the same name in its target folder, and the copy loop that asks it once
    per image (util/RefactorHelper.java in the earlier plugin generation,
    images/RefactoringTask.java in the current one; both carry the same
    logic). The file system is abstract: `F` stands for a file handle, the
    target folder's lookup result is passed in, and the dialog's answer is
    a parameter. */
module Conflicts {
  import opened Wrappers

  /** What `checkFileExist` decided about one target.
      `skip` is its return value, `deleteExisting` says the existing file is
      deleted (so the copy replaces it), `prompted` says the dialog was shown,
      and `remembered` is the new value of the object's `selection` field when
      the user picked a "for all" option. */
  datatype Decision = Decision(skip: bool, deleteExisting: bool, prompted: bool, remembered: Option<int>)

  /** The dialog options are Overwrite (0), Skip (1), Overwrite for all (2)
      and Skip for all (3); closing the dialog answers -1. */
  predicate IsForAll(answer: int) {
    answer == 2 || answer == 3
  }

  /** An answer that leads to overwriting once a choice array is passed:
      Overwrite (0) or Overwrite for all (2), since any answer above 1 is
      folded with `% 2`. */
  predicate Overwrites(answer: int) {
    0 <= answer && answer % 2 == 0
  }

  /** True when the target folder holds a different file of the same name. */
  predicate InConflict<F(==)>(dirFound: bool, existing: Option<F>, file: F) {
    dirFound && existing.Some? && existing.value != file
  }

  /** `checkFileExist(targetDirectory, choice, file, name, title)`.
      `dirFound` is false when the target directory is null, `existing` is the
      directory's file of that name, `choice` is the one-element array (None
      when the array itself is null) and `answer` is what the dialog returns
      if it is shown. */
  function CheckFileExist<F(==)>(dirFound: bool, existing: Option<F>, file: F,
                                 choice: Option<int>, answer: int): (d: Decision)
    // No conflict: nothing is asked, deleted or skipped.
    ensures !InConflict(dirFound, existing, file) ==> d == Decision(false, false, false, None)
    // The dialog is shown exactly when there is no remembered choice.
    ensures d.prompted <==> InConflict(dirFound, existing, file) && (choice.None? || choice.value == -1)
    // Only a "for all" answer given in the dialog is remembered.
    ensures d.remembered.Some? <==> d.prompted && IsForAll(answer)
    ensures d.remembered.Some? ==> d.remembered.value == answer
    // A conflict either replaces the existing file or skips the import.
    ensures InConflict(dirFound, existing, file) ==> d.skip != d.deleteExisting
    // Without a choice array only a plain Overwrite replaces; with one, a
    // "for all" answer counts as its single-file counterpart.
    ensures InConflict(dirFound, existing, file) && choice.None? ==>
      (d.deleteExisting <==> answer == 0)
    ensures InConflict(dirFound, existing, file) && choice.Some? ==>
      var given := if d.prompted then answer else choice.value;
      (d.deleteExisting <==> Overwrites(given))
  {
    if !dirFound || existing.None? || existing.value == file then
      Decision(false, false, false, None)
    else
      var prompted := choice.None? || choice.value == -1;
      var first := if prompted then answer else choice.value;
      var remembered := if prompted && (first == 2 || first == 3) then Some(first) else None;
      var selection := if choice.Some? && first > 1 then first % 2 else first;
      if selection == 0 then Decision(false, true, prompted, remembered)
      else Decision(true, false, prompted, remembered)
  }

  /** One copy request after its source and target have been resolved. */
  datatype Entry<F> = Entry(dirFound: bool, existing: Option<F>, file: F)

  /** What happened to one entry of a copy. */
  datatype Action = Copied | Replaced | Skipped
  datatype Step = Step(action: Action, prompted: bool)

  function StepOf(d: Decision): Step {
    Step(if d.skip then Skipped else if d.deleteExisting then Replaced else Copied, d.prompted)
  }

  /** The loop of `copy`: each entry is checked with a fresh one-element array
      holding the current `selection`; the dialog answers are drawn from
      `answers`, indexed by how many dialogs were shown before. */
  function CopyLoop<F(==)>(entries: seq<Entry<F>>, selection: int, shown: nat,
                           answers: nat -> int): (steps: seq<Step>)
    ensures |steps| == |entries|
    decreases |entries|
  {
    if entries == [] then []
    else
      var e := entries[0];
      var d := CheckFileExist(e.dirFound, e.existing, e.file, Some(selection), answers(shown));
      var next := if d.remembered.Some? then d.remembered.value else selection;
      [StepOf(d)] + CopyLoop(entries[1..], next, if d.prompted then shown + 1 else shown, answers)
  }

  /** `copy` resets `selection` to -1 before its loop. */
  function Copy<F(==)>(entries: seq<Entry<F>>, answers: nat -> int): (steps: seq<Step>)
    ensures |steps| == |entries|
  {
    CopyLoop(entries, -1, 0, answers)
  }

  /** Entries without a conflict are copied silently, whatever was chosen before. */
  lemma NoConflictCopies<F>(entries: seq<Entry<F>>, selection: int, shown: nat, answers: nat -> int, i: nat)
    requires i < |entries|
    requires !InConflict(entries[i].dirFound, entries[i].existing, entries[i].file)
    ensures CopyLoop(entries, selection, shown, answers)[i] == Step(Copied, false)
    decreases i
  {
    if i > 0 {
      var e := entries[0];
      var d := CheckFileExist(e.dirFound, e.existing, e.file, Some(selection), answers(shown));
      var next := if d.remembered.Some? then d.remembered.value else selection;
      NoConflictCopies(entries[1..], next, if d.prompted then shown + 1 else shown, answers, i - 1);
    }
  }

  /** Once "Overwrite for all" (2) or "Skip for all" (3) has been chosen, every
      later conflict of the same copy is resolved the same way without a
      dialog, and every other entry is copied. */
  lemma {:induction false} ForAllSticks<F>(entries: seq<Entry<F>>, selection: int, shown: nat, answers: nat -> int)
    requires IsForAll(selection)
    ensures forall i :: 0 <= i < |entries| ==>
      CopyLoop(entries, selection, shown, answers)[i] ==
        if InConflict(entries[i].dirFound, entries[i].existing, entries[i].file)
        then Step(if selection == 2 then Replaced else Skipped, false)
        else Step(Copied, false)
    decreases |entries|
  {
    if entries != [] {
      ForAllSticks(entries[1..], selection, shown, answers);
      var steps := CopyLoop(entries, selection, shown, answers);
      forall i | 0 <= i < |entries|
        ensures steps[i] ==
          if InConflict(entries[i].dirFound, entries[i].existing, entries[i].file)
          then Step(if selection == 2 then Replaced else Skipped, false)
          else Step(Copied, false)
      {
        if i > 0 {
          assert entries[1..][i - 1] == entries[i];
        }
      }
    }
  }

  /** The first conflict of a copy always shows the dialog, and its answer
      decides that entry: Overwrite and Overwrite for all replace the
      existing file, anything else skips. */
  lemma FirstConflictAsks<F>(entries: seq<Entry<F>>, answers: nat -> int, i: nat)
    requires i < |entries|
    requires InConflict(entries[i].dirFound, entries[i].existing, entries[i].file)
    requires forall j :: 0 <= j < i ==> !InConflict(entries[j].dirFound, entries[j].existing, entries[j].file)
    ensures Copy(entries, answers)[i] ==
      Step(if Overwrites(answers(0)) then Replaced else Skipped, true)
  {
    FirstConflictFrom(entries, -1, 0, answers, i);
  }

  lemma {:induction false} FirstConflictFrom<F>(entries: seq<Entry<F>>, selection: int, shown: nat,
                                                answers: nat -> int, i: nat)
    requires i < |entries| && selection == -1
    requires InConflict(entries[i].dirFound, entries[i].existing, entries[i].file)
    requires forall j :: 0 <= j < i ==> !InConflict(entries[j].dirFound, entries[j].existing, entries[j].file)
    ensures CopyLoop(entries, selection, shown, answers)[i] ==
      Step(if Overwrites(answers(shown)) then Replaced else Skipped, true)
    decreases i
  {
    if i > 0 {
      var e := entries[0];
      assert !InConflict(e.dirFound, e.existing, e.file);
      var d := CheckFileExist(e.dirFound, e.existing, e.file, Some(selection), answers(shown));
      assert d == Decision(false, false, false, None);
      assert forall j :: 0 <= j < i - 1 ==> entries[1..][j] == entries[j + 1];
      FirstConflictFrom(entries[1..], selection, shown, answers, i - 1);
      assert CopyLoop(entries, selection, shown, answers)[i] == CopyLoop(entries[1..], selection, shown, answers)[i - 1];
    }
  }

  /** Keeps the handles a lookup found, in order (a `null` lookup is dropped). */
  function Found<T>(xs: seq<Option<T>>): (r: seq<T>)
    ensures |r| <= |xs|
    ensures forall i :: 0 <= i < |r| ==> Some(r[i]) in xs
    ensures forall i :: 0 <= i < |xs| && xs[i].Some? ==> xs[i].value in r
  {
    if xs == [] then []
    else (if xs[0].Some? then [xs[0].value] else []) + Found(xs[1..])
  }

  /** Filtering distributes over concatenation: the handles keep their order
      and each found lookup contributes exactly one handle. */
  lemma {:induction false} FoundAppend<T>(xs: seq<Option<T>>, ys: seq<Option<T>>)
    ensures Found(xs + ys) == Found(xs) + Found(ys)
  {
    if xs == [] {
      assert xs + ys == ys;
    } else {
      assert (xs + ys)[1..] == xs[1..] + ys;
      FoundAppend(xs[1..], ys);
    }
  }

  /** A found lookup's handle sits at its rank: the number of lookups found
      before it. */
  lemma FoundPosition<T>(xs: seq<Option<T>>, i: int)
    requires 0 <= i < |xs| && xs[i].Some?
    ensures |Found(xs[..i])| < |Found(xs)|
    ensures Found(xs)[|Found(xs[..i])|] == xs[i].value
  {
    assert xs == xs[..i] + [xs[i]] + xs[i + 1..];
    FoundAppend(xs[..i] + [xs[i]], xs[i + 1..]);
    FoundAppend(xs[..i], [xs[i]]);
    assert Found([xs[i]]) == [xs[i].value];
  }

  /** The check before `copy`'s loop: the found sources are paired with the
      found target folders by position, and the copy proceeds only when both
      counts agree and are positive; otherwise `copy` throws `failure`
      (IOException in the earlier generation, FileNotFoundException in the
      current one). */
  function PairUp<F, D>(sources: seq<Option<F>>, targets: seq<Option<D>>, failure: Failure): (r: Result<seq<(F, D)>>)
    ensures r.Ok? <==> |Found(sources)| == |Found(targets)| > 0
    ensures r.Ok? ==> |r.value| == |Found(sources)|
    ensures r.Ok? ==> forall i :: 0 <= i < |r.value| ==> r.value[i] == (Found(sources)[i], Found(targets)[i])
    ensures r.Err? ==> r.error == failure
  {
    var files := Found(sources);
    var dirs := Found(targets);
    if |files| == |dirs| && |files| > 0 then
      Ok(seq(|files|, i requires 0 <= i < |files| => (files[i], dirs[i])))
    else
      Err(failure)
  }

  /** The pairing is by rank, not by position in the request: the i-th
      source is paired with the target folder whose rank among the found
      folders equals the i-th source's rank among the found sources. When
      different lookups fail on the two sides, a source therefore meets
      another entry's folder. */
  lemma PairUpByRank<F, D>(sources: seq<Option<F>>, targets: seq<Option<D>>, failure: Failure, i: int)
    requires 0 <= i < |sources| && sources[i].Some?
    requires PairUp(sources, targets, failure).Ok?
    ensures |Found(sources[..i])| < |PairUp(sources, targets, failure).value|
    ensures PairUp(sources, targets, failure).value[|Found(sources[..i])|] ==
      (sources[i].value, Found(targets)[|Found(sources[..i])|])
  {
    FoundPosition(sources, i);
  }

  /** A source whose own folder was not found is paired with a later entry's
      folder: `[a, null, c]` against `[null, y, z]` pairs `a` with `y`. */
  lemma PairUpMisaligns(a: int, c: int, y: int, z: int, failure: Failure)
    ensures PairUp([Some(a), None, Some(c)], [None, Some(y), Some(z)], failure) == Ok([(a, y), (c, z)])
  {
    var sources: seq<Option<int>> := [Some(a), None, Some(c)];
    var targets: seq<Option<int>> := [None, Some(y), Some(z)];
    assert Found(sources) == [a, c] by {
      assert sources[1..] == [None, Some(c)] && sources[1..][1..] == [Some(c)];
      assert Found([Some(c)]) == [c];
    }
    assert Found(targets) == [y, z] by {
      assert targets[1..] == [Some(y), Some(z)] && targets[1..][1..] == [Some(z)];
      assert Found([Some(z)]) == [z];
    }
    var r := PairUp(sources, targets, failure);
    assert |r.value| == 2 && r.value[0] == (a, y) && r.value[1] == (c, z);
    assert r.value == [(a, y), (c, z)];
  }

  lemma {:induction false} FoundAll<T>(xs: seq<Option<T>>)
    requires forall i :: 0 <= i < |xs| ==> xs[i].Some?
    ensures |Found(xs)| == |xs|
    ensures forall i :: 0 <= i < |xs| ==> Found(xs)[i] == xs[i].value
  {
    if xs != [] {
      FoundAll(xs[1..]);
    }
  }

  /** When every source and every target folder is found, each source is
      paired with its own target. */
  lemma PairUpAligned<F, D>(sources: seq<Option<F>>, targets: seq<Option<D>>, failure: Failure)
    requires |sources| == |targets| > 0
    requires forall i :: 0 <= i < |sources| ==> sources[i].Some? && targets[i].Some?
    ensures PairUp(sources, targets, failure).Ok?
    ensures |PairUp(sources, targets, failure).value| == |sources|
    ensures forall i :: 0 <= i < |sources| ==>
      PairUp(sources, targets, failure).value[i] == (sources[i].value, targets[i].value)
  {
    FoundAll(sources);
    FoundAll(targets);
  }
}

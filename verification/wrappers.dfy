/** Failure-compatible wrappers used throughout the model.
    `Option` stands for a Java reference that may be null; `Result` stands for
    a call that may throw, with `Failure` naming the exception. */
module Wrappers {

  /** A nullable value: `None` is Java's (or Python's) null / None. */
  datatype Option<+T> = None | Some(value: T) {

    predicate IsFailure() {
      None?
    }

    function PropagateFailure<U>(): Option<U>
      requires None?
    {
      None
    }

    function Extract(): T
      requires Some?
    {
      value
    }

    /** Returns the value, or `default` when there is none. */
    function GetOr(default: T): T {
      match this
      case Some(v) => v
      case None => default
    }
  }

  /** The exceptions the modelled code can raise. */
  datatype Failure =
    | IllegalArgument      // java.lang.IllegalArgumentException
    | IllegalState         // java.lang.IllegalStateException
    | NullPointer          // java.lang.NullPointerException
    | IndexOutOfBounds     // java.lang.IndexOutOfBoundsException
    | FileNotFound         // java.io.FileNotFoundException
    | WrongNinePatch       // the plugin's Wrong9PatchException
    | IOFailure            // java.io.IOException
    | PyIndexError         // Python IndexError
    | PyOSError            // Python OSError (listing a path that is not a directory)

  /** The outcome of a call that either returns a value or throws. */
  datatype Result<+T> = Ok(value: T) | Err(error: Failure) {

    predicate IsFailure() {
      Err?
    }

    function PropagateFailure<U>(): Result<U>
      requires Err?
    {
      Err(error)
    }

    function Extract(): T
      requires Ok?
    {
      value
    }
  }

  /** Concatenation regrouped. */
  lemma AppendAssoc<T>(a: seq<T>, b: seq<T>, c: seq<T>)
    ensures a + b + c == a + (b + c)
  {
  }

  /** Converts a null dereference into a thrown `NullPointerException`. */
  function Deref<T>(o: Option<T>): (r: Result<T>)
    ensures r.Ok? <==> o.Some?
    ensures r.Ok? ==> r.value == o.value
    ensures r.Err? ==> r.error == NullPointer
  {
    match o
    case Some(v) => Ok(v)
    case None => Err(NullPointer)
  }

  /** Java's `List.get(i)`, which throws outside `0 <= i < |xs|`. */
  function Get<T>(xs: seq<T>, i: int): (r: Result<T>)
    ensures r.Ok? <==> 0 <= i < |xs|
    ensures r.Ok? ==> r.value == xs[i]
    ensures r.Err? ==> r.error == IndexOutOfBounds
  {
    if 0 <= i < |xs| then Ok(xs[i]) else Err(IndexOutOfBounds)
  }

  /** A loop that builds one entry per element of a list, in order, and
      ends at the first exception. */
  function CollectAll<A, T>(entry: A -> Result<T>, xs: seq<A>): (r: Result<seq<T>>)
    ensures r.Ok? <==> forall i :: 0 <= i < |xs| ==> entry(xs[i]).Ok?
    ensures r.Ok? ==> |r.value| == |xs| && forall i :: 0 <= i < |xs| ==> r.value[i] == entry(xs[i]).value
    ensures r.Err? ==> exists i :: 0 <= i < |xs| && entry(xs[i]).Err? && r.error == entry(xs[i]).error
    decreases |xs|
  {
    if xs == [] then Ok([])
    else
      var e := entry(xs[0]);
      var rest := CollectAll(entry, xs[1..]);
      assert forall i :: 1 <= i < |xs| ==> xs[i] == xs[1..][i - 1];
      if e.Err? then Err(e.error)
      else if rest.Err? then Err(rest.error)
      else Ok([e.value] + rest.value)
  }

  /** The lists of `xss`, one after another. */
  function Concat<T>(xss: seq<seq<T>>): seq<T> {
    if |xss| == 0 then [] else xss[0] + Concat(xss[1..])
  }

  /** Whatever one of the lists holds, the concatenation holds. */
  lemma {:induction false} ConcatMember<T>(xss: seq<seq<T>>, i: int, x: T)
    requires 0 <= i < |xss| && x in xss[i]
    ensures x in Concat(xss)
    decreases i
  {
    if i > 0 {
      ConcatMember(xss[1..], i - 1, x);
    }
  }

  /** Concatenating two lists of lists piece by piece. */
  lemma {:induction false} ConcatAppend<T>(a: seq<seq<T>>, b: seq<seq<T>>)
    ensures Concat(a + b) == Concat(a) + Concat(b)
    decreases |a|
  {
    if |a| == 0 {
      assert a + b == b;
    } else {
      assert (a + b)[1..] == a[1..] + b;
      ConcatAppend(a[1..], b);
      AppendAssoc(a[0], Concat(a[1..]), Concat(b));
    }
  }

  /** What holds of every element of every list holds of the concatenation. */
  lemma {:induction false} ConcatAll<T>(xss: seq<seq<T>>, p: T -> bool)
    requires forall i, x :: 0 <= i < |xss| && x in xss[i] ==> p(x)
    ensures forall x :: x in Concat(xss) ==> p(x)
    decreases |xss|
  {
    if |xss| > 0 {
      assert forall i :: 1 <= i < |xss| ==> xss[1..][i - 1] == xss[i];
      ConcatAll(xss[1..], p);
    }
  }
}

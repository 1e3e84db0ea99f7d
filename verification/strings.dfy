/** String operations shared by the Python generator and the Java plugin.
    A string is a `seq<char>`; the order used for sorting is the code-unit
    lexicographic order of Java's `String.compareTo` and Python's `str <`. */
module Strings {
  import opened Wrappers

  /** Java's string conversion of a possibly null string (`"" + s`, `%s`). */
  function Text(s: Option<string>): string {
    match s
    case Some(v) => v
    case None => "null"
  }

  /** Index of the first occurrence of `c`, or -1. */
  function IndexOf(s: string, c: char): (i: int)
    ensures -1 <= i < |s|
    ensures i >= 0 ==> s[i] == c && c !in s[..i]
    ensures i == -1 <==> c !in s
  {
    if |s| == 0 then -1
    else if s[0] == c then 0
    else
      var i := IndexOf(s[1..], c);
      if i == -1 then -1 else 1 + i
  }

  /** A separator-free first segment is recovered by the first separator. */
  lemma {:induction false} IndexOfAfterSegment(a: string, c: char, b: string)
    requires c !in a
    ensures IndexOf(a + [c] + b, c) == |a|
    decreases |a|
  {
    if |a| > 0 {
      assert (a + [c] + b)[1..] == a[1..] + [c] + b;
      IndexOfAfterSegment(a[1..], c, b);
    }
  }

  /** Two strings cut at their first separator are equal piecewise. */
  lemma SegmentsEqual(a1: string, b1: string, a2: string, b2: string, c: char)
    requires c !in a1 && c !in a2 && a1 + [c] + b1 == a2 + [c] + b2
    ensures a1 == a2 && b1 == b2
  {
    IndexOfAfterSegment(a1, c, b1);
    IndexOfAfterSegment(a2, c, b2);
    var s := a1 + [c] + b1;
    assert a1 == s[..|a1|] && b1 == s[|a1| + 1..];
    assert a2 == s[..|a2|] && b2 == s[|a2| + 1..];
  }

  /** Two strings cut at their last separator are equal piecewise. */
  lemma LastSegmentsEqual(a1: string, b1: string, a2: string, b2: string, c: char)
    requires c !in b1 && c !in b2 && a1 + [c] + b1 == a2 + [c] + b2
    ensures a1 == a2 && b1 == b2
  {
    var s := a1 + [c] + b1;
    var i := LastIndexOf(s, c);
    assert s[|a1|] == c && s[|a2|] == c;
    assert forall j :: |a1| < j < |s| ==> s[j] == b1[j - |a1| - 1];
    assert forall j :: |a2| < j < |s| ==> s[j] == b2[j - |a2| - 1];
    assert i == |a1| && i == |a2|;
    assert a1 == s[..|a1|] && b1 == s[|a1| + 1..];
    assert a2 == s[..|a2|] && b2 == s[|a2| + 1..];
  }

  /** Two strings that share a prefix and a suffix and hold one separator
      between a separator-free field and the rest are equal piecewise. */
  lemma FramedSegmentsEqual(p: string, a1: string, b1: string, a2: string, b2: string, q: string, c: char)
    requires c !in a1 && c !in a2
    requires p + a1 + [c] + b1 + q == p + a2 + [c] + b2 + q
    ensures a1 == a2 && b1 == b2
  {
    DropCommonSuffix(p + a1 + [c] + b1, p + a2 + [c] + b2, q);
    assert p + a1 + [c] + b1 == p + (a1 + [c] + b1);
    assert p + a2 + [c] + b2 == p + (a2 + [c] + b2);
    DropCommonPrefix(p, a1 + [c] + b1, a2 + [c] + b2);
    SegmentsEqual(a1, b1, a2, b2, c);
  }

  /** Equal strings with a common prefix are equal after it. */
  lemma DropCommonPrefix(p: string, x: string, y: string)
    requires p + x == p + y
    ensures x == y
  {
    assert x == (p + x)[|p|..];
    assert y == (p + y)[|p|..];
  }

  /** Equal strings with a common suffix are equal before it. */
  lemma DropCommonSuffix(x: string, y: string, q: string)
    requires x + q == y + q
    ensures x == y
  {
    assert x == (x + q)[..|x|];
    assert y == (y + q)[..|y|];
  }

  predicate StartsWith(s: string, prefix: string) {
    |prefix| <= |s| && s[..|prefix|] == prefix
  }

  predicate EndsWith(s: string, suffix: string) {
    |suffix| <= |s| && s[|s| - |suffix|..] == suffix
  }

  /** A suffix of a suffix is a suffix. */
  lemma EndsWithTrans(a: string, b: string, c: string)
    requires EndsWith(a, b) && EndsWith(b, c)
    ensures EndsWith(a, c)
  {
    assert a[|a| - |c|..] == b[|b| - |c|..];
  }

  /** Python's `sep.join(parts)`. */
  function Join(parts: seq<string>, sep: string): string
    decreases |parts|
  {
    if |parts| == 0 then ""
    else if |parts| == 1 then parts[0]
    else parts[0] + sep + Join(parts[1..], sep)
  }

  lemma JoinCons(p: string, rest: seq<string>, sep: string)
    requires |rest| > 0
    ensures Join([p] + rest, sep) == p + sep + Join(rest, sep)
  {
    assert ([p] + rest)[1..] == rest;
  }

  /** Joining one more field appends a separator and the field. */
  lemma {:induction false} JoinSnoc1(xs: seq<string>, y: string, sep: string)
    requires |xs| > 0
    ensures Join(xs + [y], sep) == Join(xs, sep) + sep + y
    decreases |xs|
  {
    if |xs| == 1 {
      assert xs + [y] == [xs[0]] + [y];
      JoinCons(xs[0], [y], sep);
    } else {
      var rest := xs[1..];
      assert xs + [y] == [xs[0]] + (rest + [y]);
      assert xs == [xs[0]] + rest;
      JoinCons(xs[0], rest + [y], sep);
      JoinCons(xs[0], rest, sep);
      JoinSnoc1(rest, y, sep);
      var u := xs[0] + sep;
      var b := Join(rest, sep);
      AppendAssoc(u, b + sep, y);
      AppendAssoc(u, b, sep);
    }
  }

  /** Python's `s.split(c)`: every field, empty ones included. */
  function Split(s: string, c: char): (parts: seq<string>)
    ensures |parts| >= 1
    ensures forall i :: 0 <= i < |parts| ==> c !in parts[i]
    ensures Join(parts, [c]) == s
    decreases |s|
  {
    if |s| == 0 then [""]
    else
      var rest := Split(s[1..], c);
      if s[0] == c then
        assert Join([""] + rest, [c]) == "" + [c] + Join(rest, [c]);
        [""] + rest
      else
        var r := [[s[0]] + rest[0]] + rest[1..];
        assert r[1..] == rest[1..];
        assert s == [s[0]] + s[1..];
        r
  }

  lemma {:induction false} SplitNoSeparator(s: string, c: char)
    requires c !in s
    ensures Split(s, c) == [s]
    decreases |s|
  {
    if |s| > 0 {
      assert c !in s[1..];
      SplitNoSeparator(s[1..], c);
      assert [s[0]] + s[1..] == s;
    }
  }

  lemma {:induction false} SplitAfterField(p: string, c: char, t: string)
    requires c !in p
    ensures Split(p + [c] + t, c) == [p] + Split(t, c)
    decreases |p|
  {
    if |p| == 0 {
      assert p + [c] + t == [c] + t;
      assert ([c] + t)[1..] == t;
    } else {
      var s := p + [c] + t;
      assert s[0] == p[0];
      assert s[1..] == p[1..] + [c] + t;
      assert c !in p[1..];
      SplitAfterField(p[1..], c, t);
      assert [p[0]] + p[1..] == p;
    }
  }

  /** Splitting around one separator splits each side on its own. */
  lemma {:induction false} SplitAppend(a: string, c: char, b: string)
    ensures Split(a + [c] + b, c) == Split(a, c) + Split(b, c)
    decreases |a|
  {
    if |a| == 0 {
      assert a + [c] + b == [c] + b;
      assert ([c] + b)[1..] == b;
    } else {
      var s := a + [c] + b;
      var x, y := Split(a[1..], c), Split(b, c);
      assert s[0] == a[0];
      assert Split(s[1..], c) == x + y by {
        assert s[1..] == a[1..] + [c] + b;
        SplitAppend(a[1..], c, b);
      }
      if a[0] == c {
        calc {
          Split(s, c);
          [""] + Split(s[1..], c);
          [""] + (x + y);
          { AppendAssoc([""], x, y); }
          [""] + x + y;
          Split(a, c) + y;
        }
      } else {
        var h := [a[0]] + x[0];
        calc {
          Split(s, c);
          [[a[0]] + Split(s[1..], c)[0]] + Split(s[1..], c)[1..];
          [h] + (x + y)[1..];
          { assert (x + y)[1..] == x[1..] + y; }
          [h] + (x[1..] + y);
          { AppendAssoc([h], x[1..], y); }
          [h] + x[1..] + y;
          Split(a, c) + y;
        }
      }
    }
  }

  /** Splitting a joined list of separator-free fields gives the fields back. */
  lemma {:induction false} SplitOfJoin(parts: seq<string>, c: char)
    requires |parts| >= 1
    requires forall i :: 0 <= i < |parts| ==> c !in parts[i]
    ensures Split(Join(parts, [c]), c) == parts
    decreases |parts|
  {
    if |parts| == 1 {
      SplitNoSeparator(parts[0], c);
    } else {
      SplitOfJoin(parts[1..], c);
      SplitAfterField(parts[0], c, Join(parts[1..], [c]));
      assert [parts[0]] + parts[1..] == parts;
    }
  }

  /** Drops the empty strings at the end of `parts`. */
  function DropTrailingEmpty(parts: seq<string>): (r: seq<string>)
    ensures |r| <= |parts| && r == parts[..|r|]
    ensures |r| > 0 ==> r[|r| - 1] != ""
    ensures forall i :: |r| <= i < |parts| ==> parts[i] == ""
  {
    if |parts| == 0 then []
    else if parts[|parts| - 1] == "" then DropTrailingEmpty(parts[..|parts| - 1])
    else parts
  }

  /** Java's `s.split(c)` for a one-character, non-special regex: like Python's
      split, except that trailing empty fields are removed, and a string
      without any separator comes back whole. */
  function JavaSplit(s: string, c: char): (parts: seq<string>)
    ensures c !in s ==> parts == [s]
    ensures forall i :: 0 <= i < |parts| ==> c !in parts[i]
    ensures c in s && |parts| > 0 ==> parts[|parts| - 1] != ""
  {
    if c !in s then [s] else DropTrailingEmpty(Split(s, c))
  }

  /** A string holding the separator and not ending in an empty field
      splits exactly as Python would split it. */
  lemma JavaSplitKeepsLast(s: string, c: char)
    requires c in s && Split(s, c)[|Split(s, c)| - 1] != ""
    ensures JavaSplit(s, c) == Split(s, c)
  {
  }

  /** Index of the last occurrence of `c`, or -1. */
  function LastIndexOf(s: string, c: char): (i: int)
    ensures -1 <= i < |s|
    ensures i >= 0 ==> s[i] == c
    ensures forall j :: i < j < |s| ==> s[j] != c
    ensures i == -1 <==> c !in s
  {
    if |s| == 0 then -1
    else if s[|s| - 1] == c then |s| - 1
    else
      assert s == s[..|s| - 1] + [s[|s| - 1]];
      LastIndexOf(s[..|s| - 1], c)
  }

  /** Java's `s.replace(target, "")`: removes the non-overlapping occurrences
      of `target`, scanning from the left. An empty target changes nothing. */
  function RemoveAll(s: string, target: string): (r: string)
    ensures |r| <= |s|
    ensures |target| == 0 ==> r == s
    decreases |s|
  {
    if |target| == 0 || |s| < |target| then s
    else if s[..|target|] == target then RemoveAll(s[|target|..], target)
    else [s[0]] + RemoveAll(s[1..], target)
  }

  /** `target` occurs in `s` as a contiguous piece. */
  predicate Contains(s: string, target: string)
    decreases |s|
  {
    StartsWith(s, target) || (|s| > 0 && Contains(s[1..], target))
  }

  lemma {:induction false} RemoveAllAbsent(s: string, target: string)
    requires |target| > 0 && !Contains(s, target)
    ensures RemoveAll(s, target) == s
    decreases |s|
  {
    if |s| >= |target| {
      RemoveAllAbsent(s[1..], target);
      assert [s[0]] + s[1..] == s;
    }
  }

  /** Removing a target that occurs only at the very end removes just that
      occurrence. */
  lemma {:induction false} RemoveAllAtEnd(a: string, t: string)
    requires |t| > 0 && !Contains(a + t[..|t| - 1], t)
    ensures RemoveAll(a + t, t) == a
    decreases |a|
  {
    var s := a + t;
    if |a| == 0 {
      assert s == t && s[|t|..] == [];
    } else {
      var u := a + t[..|t| - 1];
      assert u[..|t|] == s[..|t|];
      assert s[1..] == a[1..] + t;
      assert u[1..] == a[1..] + t[..|t| - 1];
      RemoveAllAtEnd(a[1..], t);
    }
  }

  /** A leading occurrence of the target is removed first. */
  lemma RemoveAllPrefix(t: string, n: string)
    requires |t| > 0
    ensures RemoveAll(t + n, t) == RemoveAll(n, t)
  {
    assert (t + n)[..|t|] == t && (t + n)[|t|..] == n;
  }

  /** A text containing `t` contains its last character. */
  lemma {:induction false} ContainsLast(s: string, t: string)
    requires |t| > 0 && Contains(s, t)
    ensures t[|t| - 1] in s
    decreases |s|
  {
    if StartsWith(s, t) {
      assert s[|t| - 1] == t[|t| - 1];
    } else {
      ContainsLast(s[1..], t);
    }
  }

  /** Appending characters other than `t`'s last cannot create an occurrence. */
  lemma {:induction false} ContainsDropBack(x: string, u: string, t: string)
    requires |t| > 0 && !Contains(x, t) && t[|t| - 1] !in u
    ensures !Contains(x + u, t)
    decreases |x|
  {
    if |x| == 0 {
      assert x + u == u;
      if Contains(u, t) {
        ContainsLast(u, t);
      }
    } else {
      assert (x + u)[1..] == x[1..] + u;
      ContainsDropBack(x[1..], u, t);
    }
  }

  /** Prepending characters other than `t`'s first cannot create an occurrence. */
  lemma {:induction false} ContainsDropFront(c: string, y: string, t: string)
    requires |t| > 0 && !Contains(y, t) && t[0] !in c
    ensures !Contains(c + y, t)
    decreases |c|
  {
    if |c| == 0 {
      assert c + y == y;
    } else {
      assert (c + y)[0] == c[0];
      assert (c + y)[1..] == c[1..] + y;
      ContainsDropFront(c[1..], y, t);
    }
  }

  /** The last occurrence of `c` is the one with no `c` after it. */
  lemma LastIndexOfAt(s: string, c: char, i: int)
    requires 0 <= i < |s| && s[i] == c
    requires forall j :: i < j < |s| ==> s[j] != c
    ensures LastIndexOf(s, c) == i
  {
    assert c in s;
  }

  /** Java's `s.replace(from, to)` for characters. */
  function ReplaceChar(s: string, from: char, to: char): (r: string)
    ensures |r| == |s|
    ensures forall i :: 0 <= i < |s| ==> r[i] == (if s[i] == from then to else s[i])
  {
    seq(|s|, i requires 0 <= i < |s| => if s[i] == from then to else s[i])
  }

  function LowerChar(c: char): char {
    if 'A' <= c <= 'Z' then (c as int + 32) as char else c
  }

  function UpperChar(c: char): char {
    if 'a' <= c <= 'z' then (c as int - 32) as char else c
  }

  /** Java's `toLowerCase` on the ASCII letters. */
  function ToLower(s: string): (r: string)
    ensures |r| == |s|
    ensures forall i :: 0 <= i < |s| ==> r[i] == LowerChar(s[i])
  {
    seq(|s|, i requires 0 <= i < |s| => LowerChar(s[i]))
  }

  /** Java's `toUpperCase` on the ASCII letters. */
  function ToUpper(s: string): (r: string)
    ensures |r| == |s|
    ensures forall i :: 0 <= i < |s| ==> r[i] == UpperChar(s[i])
  {
    seq(|s|, i requires 0 <= i < |s| => UpperChar(s[i]))
  }

  /** Java's `a.equalsIgnoreCase(b)` on ASCII letters. */
  predicate EqualsIgnoreCase(a: string, b: string) {
    ToLower(a) == ToLower(b)
  }

  function TrimStart(s: string): (r: string)
    ensures |r| <= |s| && r == s[|s| - |r|..]
    ensures |r| > 0 ==> r[0] > ' '
    ensures forall i :: 0 <= i < |s| - |r| ==> s[i] <= ' '
  {
    if |s| > 0 && s[0] <= ' ' then TrimStart(s[1..]) else s
  }

  function TrimEnd(s: string): (r: string)
    ensures |r| <= |s| && r == s[..|r|]
    ensures |r| > 0 ==> r[|r| - 1] > ' '
    ensures forall i :: |r| <= i < |s| ==> s[i] <= ' '
  {
    if |s| > 0 && s[|s| - 1] <= ' ' then TrimEnd(s[..|s| - 1]) else s
  }

  /** Java's `trim`: strips the characters up to U+0020 at both ends. */
  function Trim(s: string): string {
    TrimEnd(TrimStart(s))
  }

  /** A trimmed string is empty exactly when every character is at most U+0020. */
  lemma TrimEmpty(s: string)
    ensures Trim(s) == "" <==> forall i :: 0 <= i < |s| ==> s[i] <= ' '
  {
    var t := TrimStart(s);
  }

  /** Strict code-unit lexicographic order: `a` sorts before `b`. */
  predicate Below(a: string, b: string)
    decreases |a|
  {
    |b| > 0 && (|a| == 0 || a[0] < b[0] || (a[0] == b[0] && Below(a[1..], b[1..])))
  }

  lemma {:induction false} BelowIrreflexive(a: string)
    ensures !Below(a, a)
    decreases |a|
  {
    if |a| > 0 {
      BelowIrreflexive(a[1..]);
    }
  }

  lemma {:induction false} BelowTransitive(a: string, b: string, c: string)
    requires Below(a, b) && Below(b, c)
    ensures Below(a, c)
    decreases |a|
  {
    if |a| > 0 && a[0] == b[0] && b[0] == c[0] {
      BelowTransitive(a[1..], b[1..], c[1..]);
    }
  }

  lemma {:induction false} BelowTotal(a: string, b: string)
    ensures a == b || Below(a, b) || Below(b, a)
    decreases |a|
  {
    if |a| > 0 && |b| > 0 && a[0] == b[0] {
      BelowTotal(a[1..], b[1..]);
      assert a == [a[0]] + a[1..] && b == [b[0]] + b[1..];
    } else {
      ElemsEmpty(a);
      ElemsEmpty(b);
    }
  }

  lemma {:induction false} BelowAsymmetric(a: string, b: string)
    ensures !(Below(a, b) && Below(b, a))
    decreases |a|
  {
    if |a| > 0 && |b| > 0 && a[0] == b[0] {
      BelowAsymmetric(a[1..], b[1..]);
    }
  }

  /** `a` sorts no later than `b`. */
  predicate AtMost(a: string, b: string) {
    !Below(b, a)
  }

  lemma AtMostTransitive(a: string, b: string, c: string)
    requires AtMost(a, b) && AtMost(b, c)
    ensures AtMost(a, c)
  {
    if a != b && b != c {
      BelowTotal(a, b);
      BelowTotal(b, c);
      BelowTransitive(a, b, c);
      BelowAsymmetric(a, c);
    }
  }

  /** The elements of a list. */
  function Elems<T>(xs: seq<T>): set<T> {
    set x | x in xs
  }

  lemma ElemsEmpty<T>(xs: seq<T>)
    ensures Elems(xs) == {} <==> |xs| == 0
  {
    if |xs| > 0 {
      assert xs[0] in Elems(xs);
    }
  }

  /** A list without repetitions has as many distinct elements as entries. */
  lemma {:induction false} DistinctElemsSize<T>(xs: seq<T>)
    requires forall i, j :: 0 <= i < j < |xs| ==> xs[i] != xs[j]
    ensures |Elems(xs)| == |xs|
    decreases |xs|
  {
    if |xs| > 0 {
      var rest := xs[1..];
      assert forall i, j :: 0 <= i < j < |rest| ==> rest[i] != rest[j] by {
        forall i, j | 0 <= i < j < |rest| ensures rest[i] != rest[j] {
          assert rest[i] == xs[i + 1] && rest[j] == xs[j + 1];
        }
      }
      DistinctElemsSize(rest);
      assert Elems(xs) == {xs[0]} + Elems(rest) by {
        assert xs == [xs[0]] + rest;
      }
      assert xs[0] !in Elems(rest);
    }
  }

  predicate StrictlySorted(xs: seq<string>) {
    forall i, j :: 0 <= i < j < |xs| ==> Below(xs[i], xs[j])
  }

  /** Inserts `x` into a sorted list unless it is already there. */
  function InsertSorted(x: string, ys: seq<string>): seq<string>
    decreases |ys|
  {
    if |ys| == 0 then [x]
    else if x == ys[0] then ys
    else if Below(x, ys[0]) then [x] + ys
    else [ys[0]] + InsertSorted(x, ys[1..])
  }

  lemma {:induction false} InsertSortedSpec(x: string, ys: seq<string>)
    requires StrictlySorted(ys)
    ensures StrictlySorted(InsertSorted(x, ys))
    ensures Elems(InsertSorted(x, ys)) == {x} + Elems(ys)
  {
    InsertSortedElems(x, ys);
    InsertSortedSorted(x, ys);
  }

  lemma {:induction false} InsertSortedElems(x: string, ys: seq<string>)
    ensures Elems(InsertSorted(x, ys)) == {x} + Elems(ys)
    decreases |ys|
  {
    if |ys| > 0 && x != ys[0] && !Below(x, ys[0]) {
      InsertSortedElems(x, ys[1..]);
      var rest := InsertSorted(x, ys[1..]);
      assert Elems([ys[0]] + rest) == {ys[0]} + Elems(rest);
      assert Elems(ys) == {ys[0]} + Elems(ys[1..]) by {
        assert ys == [ys[0]] + ys[1..];
      }
    }
  }

  lemma {:induction false} InsertSortedSorted(x: string, ys: seq<string>)
    requires StrictlySorted(ys)
    ensures StrictlySorted(InsertSorted(x, ys))
    decreases |ys|
  {
    if |ys| == 0 {
    } else if x == ys[0] {
    } else if Below(x, ys[0]) {
      forall j | 0 < j < |ys| ensures Below(x, ys[j]) {
        BelowTransitive(x, ys[0], ys[j]);
      }
    } else {
      BelowTotal(x, ys[0]);
      InsertSortedSorted(x, ys[1..]);
      InsertSortedElems(x, ys[1..]);
      var rest := InsertSorted(x, ys[1..]);
      forall j | 0 <= j < |rest| ensures Below(ys[0], rest[j]) {
        assert rest[j] in Elems(rest);
      }
    }
  }

  /** Python's `sorted(set(xs))` and Java's sort of a `HashSet`'s copy:
      the distinct elements of `xs` in ascending order (see `SortedSetSpec`). */
  function SortedSet(xs: seq<string>): seq<string>
    decreases |xs|
  {
    if |xs| == 0 then []
    else InsertSorted(xs[|xs| - 1], SortedSet(xs[..|xs| - 1]))
  }

  /** `SortedSet(xs)` is strictly ascending and holds exactly the elements of `xs`. */
  lemma {:induction false} SortedSetSpec(xs: seq<string>)
    ensures StrictlySorted(SortedSet(xs))
    ensures Elems(SortedSet(xs)) == Elems(xs)
    decreases |xs|
  {
    if |xs| > 0 {
      SortedSetSpec(xs[..|xs| - 1]);
      InsertSortedSpec(xs[|xs| - 1], SortedSet(xs[..|xs| - 1]));
      assert Elems(xs) == {xs[|xs| - 1]} + Elems(xs[..|xs| - 1]) by {
        assert xs == xs[..|xs| - 1] + [xs[|xs| - 1]];
      }
    }
  }

  /** The distinct images of `xs` under `f`, in ascending order: a list of
      values collected into a set and sorted. */
  function SortedImage<T>(f: T -> string, xs: seq<T>): (r: seq<string>)
    ensures StrictlySorted(r)
    ensures forall x :: x in r <==> exists y :: y in xs && x == f(y)
  {
    var ys := seq(|xs|, i requires 0 <= i < |xs| => f(xs[i]));
    SortedSetSpec(ys);
    forall x | x in ys ensures exists y :: y in xs && x == f(y) {
      var i :| 0 <= i < |ys| && ys[i] == x;
      assert xs[i] in xs;
    }
    forall y | y in xs ensures f(y) in ys {
      var i :| 0 <= i < |xs| && xs[i] == y;
      assert ys[i] == f(y);
    }
    assert forall x :: x in SortedSet(ys) <==> x in Elems(ys);
    SortedSet(ys)
  }

  /** The head of a strictly sorted list is its least element. */
  lemma HeadIsLeast(xs: seq<string>, x: string)
    requires StrictlySorted(xs) && x in xs
    ensures x == xs[0] || Below(xs[0], x)
  {
  }

  lemma TailElems(xs: seq<string>)
    requires StrictlySorted(xs) && |xs| > 0
    ensures Elems(xs[1..]) == Elems(xs) - {xs[0]}
  {
    assert xs == [xs[0]] + xs[1..];
    BelowIrreflexive(xs[0]);
    forall k | 0 <= k < |xs[1..]| ensures xs[1..][k] != xs[0] {
      assert Below(xs[0], xs[k + 1]);
    }
  }

  /** A strictly sorted list is determined by its elements. */
  lemma {:induction false} StrictlySortedUnique(a: seq<string>, b: seq<string>)
    requires StrictlySorted(a) && StrictlySorted(b) && Elems(a) == Elems(b)
    ensures a == b
    decreases |a|
  {
    if |a| > 0 && |b| > 0 {
      assert a[0] in Elems(b) && b[0] in Elems(a);
      HeadIsLeast(a, b[0]);
      HeadIsLeast(b, a[0]);
      BelowAsymmetric(a[0], b[0]);
      TailElems(a);
      TailElems(b);
      StrictlySortedUnique(a[1..], b[1..]);
      assert a == [a[0]] + a[1..] && b == [b[0]] + b[1..];
    } else {
      ElemsEmpty(a);
      ElemsEmpty(b);
    }
  }

  /** `SortedSet` is the one strictly sorted list with the elements of `xs`. */
  lemma SortedSetCharacterized(xs: seq<string>, r: seq<string>)
    requires StrictlySorted(r) && Elems(r) == Elems(xs)
    ensures SortedSet(xs) == r
  {
    SortedSetSpec(xs);
    StrictlySortedUnique(SortedSet(xs), r);
  }

  /** `xs` is ordered by `key`, ties allowed. */
  predicate SortedBy<T>(xs: seq<T>, key: T -> string) {
    forall i, j :: 0 <= i < j < |xs| ==> AtMost(key(xs[i]), key(xs[j]))
  }

  function InsertBy<T>(x: T, ys: seq<T>, key: T -> string): (r: seq<T>)
    requires SortedBy(ys, key)
    ensures SortedBy(r, key)
    ensures multiset(r) == multiset{x} + multiset(ys)
    decreases |ys|
  {
    if |ys| == 0 || AtMost(key(x), key(ys[0])) then
      assert forall j :: 0 <= j < |ys| ==> AtMost(key(x), key(ys[j])) by {
        forall j | 0 < j < |ys| ensures AtMost(key(x), key(ys[j])) {
          AtMostTransitive(key(x), key(ys[0]), key(ys[j]));
        }
      }
      [x] + ys
    else
      BelowAsymmetric(key(x), key(ys[0]));
      var rest := InsertBy(x, ys[1..], key);
      assert forall j :: 0 <= j < |rest| ==> AtMost(key(ys[0]), key(rest[j])) by {
        forall j | 0 <= j < |rest| ensures AtMost(key(ys[0]), key(rest[j])) {
          assert rest[j] in multiset(rest);
          if rest[j] != x {
            assert rest[j] in multiset(ys[1..]);
            var k :| 0 <= k < |ys[1..]| && ys[1..][k] == rest[j];
            assert ys[k + 1] == rest[j];
          }
        }
      }
      assert ys == [ys[0]] + ys[1..];
      [ys[0]] + rest
  }

  /** Java's `Arrays.sort` with a comparator on `key`: a permutation of `xs`
      ordered by `key`. */
  function SortBy<T>(xs: seq<T>, key: T -> string): (r: seq<T>)
    ensures SortedBy(r, key)
    ensures multiset(r) == multiset(xs)
    decreases |xs|
  {
    if |xs| == 0 then []
    else
      assert xs == [xs[0]] + xs[1..];
      InsertBy(xs[0], SortBy(xs[1..], key), key)
  }
}

/** A directory tree, standing for what the file system holds.
    Listing order is the order of `children`. */
module Listing {
  import opened Wrappers

  datatype Node = Node(name: string, isDir: bool, children: seq<Node>)

  function Names(nodes: seq<Node>): (r: seq<string>)
    ensures |r| == |nodes|
    ensures forall i :: 0 <= i < |nodes| ==> r[i] == nodes[i].name
  {
    seq(|nodes|, i requires 0 <= i < |nodes| => nodes[i].name)
  }

  /** Python's `os.listdir`: fails with OSError on anything but a directory. */
  function ListDir(n: Node): (r: Result<seq<Node>>)
    ensures r.Ok? <==> n.isDir
    ensures r.Ok? ==> r.value == n.children
    ensures r.Err? ==> r.error == PyOSError
  {
    if n.isDir then Ok(n.children) else Err(PyOSError)
  }

  /** Java's `File.listFiles()`: null for anything but a directory. */
  function ListFiles(n: Node): (r: Option<seq<Node>>)
    ensures r.Some? <==> n.isDir
    ensures r.Some? ==> r.value == n.children
  {
    if n.isDir then Some(n.children) else None
  }

  /** The first entry of `n` called `name`, as `join(dir, name)` resolves it. */
  function ChildNamed(n: Node, name: string): (r: Option<Node>)
    ensures r.Some? ==> r.value in n.children && r.value.name == name
    ensures r.None? ==> forall c :: c in n.children ==> c.name != name
  {
    ChildIn(n.children, name)
  }

  function ChildIn(nodes: seq<Node>, name: string): (r: Option<Node>)
    ensures r.Some? ==> r.value in nodes && r.value.name == name
    ensures r.None? ==> forall c :: c in nodes ==> c.name != name
  {
    if |nodes| == 0 then None
    else if nodes[0].name == name then Some(nodes[0])
    else ChildIn(nodes[1..], name)
  }

  /** `k` is the position of the first node called `name`. */
  predicate FirstNamed(nodes: seq<Node>, name: string, k: int) {
    0 <= k < |nodes| && nodes[k].name == name && forall j :: 0 <= j < k ==> nodes[j].name != name
  }

  /** The lookup finds the first node with the name. */
  lemma {:induction false} ChildInFirst(nodes: seq<Node>, name: string, k: int)
    requires FirstNamed(nodes, name, k)
    ensures ChildIn(nodes, name) == Some(nodes[k])
  {
    if k > 0 {
      assert nodes[0].name != name;
      assert FirstNamed(nodes[1..], name, k - 1) by {
        forall j | 0 <= j < k - 1 ensures nodes[1..][j].name != name {
          assert nodes[1..][j] == nodes[j + 1];
        }
      }
      ChildInFirst(nodes[1..], name, k - 1);
    }
  }

  lemma ChildInFirstAll(nodes: seq<Node>, name: string)
    ensures forall k :: FirstNamed(nodes, name, k) ==> ChildIn(nodes, name) == Some(nodes[k])
  {
    forall k | FirstNamed(nodes, name, k) ensures ChildIn(nodes, name) == Some(nodes[k]) {
      ChildInFirst(nodes, name, k);
    }
  }

  /** Keeps the nodes satisfying `p`, in order. */
  function FilterNodes(nodes: seq<Node>, p: Node -> bool): (r: seq<Node>)
    ensures |r| <= |nodes|
    ensures forall x :: x in r <==> x in nodes && p(x)
  {
    if |nodes| == 0 then []
    else (if p(nodes[0]) then [nodes[0]] else []) + FilterNodes(nodes[1..], p)
  }

  /** Filtering works piece by piece: together with the one-node case this
      says the kept nodes come in their listing order, each once. */
  lemma {:induction false} FilterNodesAppend(a: seq<Node>, b: seq<Node>, p: Node -> bool)
    ensures FilterNodes(a + b, p) == FilterNodes(a, p) + FilterNodes(b, p)
    decreases |a|
  {
    if |a| == 0 {
      assert a + b == b;
    } else {
      assert (a + b)[0] == a[0];
      assert (a + b)[1..] == a[1..] + b;
      FilterNodesAppend(a[1..], b, p);
    }
  }

  /** The first node kept is the first node satisfying `p`. */
  lemma {:induction false} FilterNodesHead(nodes: seq<Node>, p: Node -> bool, k: int)
    requires 0 <= k < |nodes| && p(nodes[k])
    requires forall j :: 0 <= j < k ==> !p(nodes[j])
    ensures FilterNodes(nodes, p) != [] && FilterNodes(nodes, p)[0] == nodes[k]
    decreases k
  {
    if k > 0 {
      FilterNodesHead(nodes[1..], p, k - 1);
    }
  }

  /** The images under `f` of the nodes satisfying `p`, in order: a loop
      that skips some entries and collects one value from each other one. */
  function FilterMap<T(!new)>(nodes: seq<Node>, p: Node -> bool, f: Node -> T): (r: seq<T>)
    ensures |r| <= |nodes|
    ensures forall x :: x in r <==> exists n :: n in nodes && p(n) && x == f(n)
    decreases |nodes|
  {
    if |nodes| == 0 then []
    else
      var rest := FilterMap(nodes[1..], p, f);
      assert forall n :: n in nodes <==> n == nodes[0] || n in nodes[1..];
      (if p(nodes[0]) then [f(nodes[0])] else []) + rest
  }

  /** Collecting is filtering followed by taking each kept node's value. */
  lemma {:induction false} FilterMapIsMapOfFilter<T(!new)>(nodes: seq<Node>, p: Node -> bool, f: Node -> T)
    ensures var kept := FilterNodes(nodes, p);
      FilterMap(nodes, p, f) == seq(|kept|, i requires 0 <= i < |kept| => f(kept[i]))
    decreases |nodes|
  {
    if |nodes| > 0 {
      FilterMapIsMapOfFilter(nodes[1..], p, f);
    }
  }
}

/**
 * The file system as a tree of names and sizes, and FileManager's two ways
 * of looking at it: contentsOfDirectory (one level, in listing order) and
 * enumerator(at:) (every entry below a directory, depth first).
 */
module FileTree {
  import opened Wrappers
  import opened Paths
  import opened Plist

  /**
   * A directory entry: a file with its byte size and, when its bytes decode as
   * a property list, the decoded value; or a directory with its entries in
   * listing order.
   */
  datatype Node =
    | File(name: string, size: nat, plist: Option<Value>)
    | Dir(name: string, children: seq<Node>)

  /** An entry met by the enumerator, with the URL it is reported under. */
  datatype Item = Item(path: Path, node: Node)

  /** contentsOfDirectory of an entry; a file has none. */
  function Children(n: Node): seq<Node>
  {
    if n.Dir? then n.children else []
  }

  /** contentsOfDirectory(atPath:): the names of the entries. */
  function Names(nodes: seq<Node>): (r: seq<string>)
  {
    seq(|nodes|, i requires 0 <= i < |nodes| => nodes[i].name)
  }

  /** The entry a directory URL plus `name` refers to. */
  function ChildNamed(nodes: seq<Node>, name: string): (r: Option<Node>)
  {
    if nodes == [] then None
    else if nodes[0].name == name then Some(nodes[0])
    else ChildNamed(nodes[1..], name)
  }

  /** ChildNamed finds the first entry of that name, or tells that there is none. */
  lemma {:induction false} ChildNamedFinds(nodes: seq<Node>, name: string)
    ensures var r := ChildNamed(nodes, name);
            && (r.Some? ==> r.value in nodes && r.value.name == name)
            && (r.None? ==> forall i :: 0 <= i < |nodes| ==> nodes[i].name != name)
    decreases |nodes|
  {
    if nodes != [] && nodes[0].name != name {
      ChildNamedFinds(nodes[1..], name);
      assert forall i :: 1 <= i < |nodes| ==> nodes[i] == nodes[1..][i - 1];
    }
  }

  /**
   * FileManager.enumerator(at: dir) over the entries `nodes` of `dir`: each
   * entry, then (for a directory) everything below it, in listing order.
   */
  function Walk(dir: Path, nodes: seq<Node>): (r: seq<Item>)
    decreases nodes
  {
    if nodes == [] then []
    else
      var head := nodes[0];
      var here := dir + [head.name];
      [Item(here, head)]
      + (if head.Dir? then Walk(here, head.children) else [])
      + Walk(dir, nodes[1..])
  }

  /** Every entry of the directory itself is met by the walk. */
  lemma {:induction false} WalkMeetsEntry(dir: Path, nodes: seq<Node>, k: nat)
    requires k < |nodes|
    ensures Item(dir + [nodes[k].name], nodes[k]) in Walk(dir, nodes)
    decreases k
  {
    if k > 0 {
      WalkMeetsEntry(dir, nodes[1..], k - 1);
      assert nodes[1..][k - 1] == nodes[k];
    }
  }

  /** The walk of a directory entry's own entries is part of the walk. */
  lemma {:induction false} WalkEntersDirectory(dir: Path, nodes: seq<Node>, k: nat)
    requires k < |nodes| && nodes[k].Dir?
    ensures forall it :: it in Walk(dir + [nodes[k].name], nodes[k].children) ==> it in Walk(dir, nodes)
    decreases k
  {
    if k > 0 {
      WalkEntersDirectory(dir, nodes[1..], k - 1);
      assert nodes[1..][k - 1] == nodes[k];
    }
  }

  /** Every item of the walk lies strictly below `dir` and is reported under its own name. */
  lemma {:induction false} WalkPaths(dir: Path, nodes: seq<Node>)
    ensures forall it :: it in Walk(dir, nodes) ==>
              IsUnder(it.path, dir) && |it.path| > |dir| && LastComponent(it.path) == it.node.name
    decreases nodes
  {
    if nodes != [] {
      var head := nodes[0];
      var here := dir + [head.name];
      WalkPaths(dir, nodes[1..]);
      if head.Dir? {
        WalkPaths(here, head.children);
        forall it | it in Walk(here, head.children)
          ensures IsUnder(it.path, dir)
        {
          assert it.path[..|here|][..|dir|] == it.path[..|dir|];
        }
      }
    }
  }
}

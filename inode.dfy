/**
  The inode tree and its flattening into a table. A folder's entries are an
  ordered map (a B-tree); here they are the map's entries in ascending key
  order, which is also the order its iterator yields them.
 */
module Inode {

  import opened Wrappers
  import opened Ints
  import opened Seqs

  /** An inode: a redirect to `target`, or a folder with ordered named entries. */
  datatype INode =
    | File(ino: u64, name: string, target: string)
    | Folder(ino: u64, name: string, entries: seq<(string, INode)>)

  /** Lexicographic order on strings, the order of Rust's `String` (UTF-8 bytes
      compare in the same order as the characters they encode). */
  predicate StrLess(a: string, b: string)
  {
    if |a| == 0 then |b| > 0
    else |b| > 0 && (a[0] < b[0] || (a[0] == b[0] && StrLess(a[1..], b[1..])))
  }

  lemma {:induction false} StrLessIrreflexive(a: string)
    ensures !StrLess(a, a)
  {
    if |a| > 0 { StrLessIrreflexive(a[1..]); }
  }

  lemma {:induction false} StrLessAsymmetric(a: string, b: string)
    requires StrLess(a, b)
    ensures !StrLess(b, a)
  {
    if |a| > 0 && a[0] == b[0] { StrLessAsymmetric(a[1..], b[1..]); }
  }

  lemma {:induction false} StrLessTransitive(a: string, b: string, c: string)
    requires StrLess(a, b) && StrLess(b, c)
    ensures StrLess(a, c)
  {
    if |a| > 0 && a[0] == b[0] && b[0] == c[0] {
      StrLessTransitive(a[1..], b[1..], c[1..]);
    }
  }

  /** A chain of neighbouring comparisons orders every pair. */
  lemma {:induction false} StrLessChain(keys: seq<string>, i: nat, j: nat)
    requires forall k :: 0 <= k < |keys| - 1 ==> StrLess(keys[k], keys[k + 1])
    requires i < j < |keys|
    ensures StrLess(keys[i], keys[j])
    decreases j - i
  {
    if i + 1 < j {
      StrLessChain(keys, i + 1, j);
      StrLessTransitive(keys[i], keys[i + 1], keys[j]);
    }
  }

  /** Keys strictly ascending, as a B-tree map holds them. */
  predicate Ordered(entries: seq<(string, INode)>)
  {
    forall i, j :: 0 <= i < j < |entries| ==> StrLess(entries[i].0, entries[j].0)
  }

  /** Every folder of the tree keeps its entries in ascending key order. */
  predicate WellFormed(n: INode)
  {
    match n
    case File(_, _, _) => true
    case Folder(_, _, entries) =>
      Ordered(entries) && forall i :: 0 <= i < |entries| ==> WellFormed(entries[i].1)
  }

  /** In ordered entries a smaller key sits at a smaller position. */
  lemma OrderedPositions(entries: seq<(string, INode)>, i: nat, j: nat)
    requires Ordered(entries) && i < |entries| && j < |entries|
    requires StrLess(entries[i].0, entries[j].0)
    ensures i < j
  {
    if j == i {
      StrLessIrreflexive(entries[i].0);
    } else if j < i {
      StrLessAsymmetric(entries[j].0, entries[i].0);
    }
  }

  /** The ordered map's `get`: the entry stored under `key`, if any. */
  function Get(entries: seq<(string, INode)>, key: string): (r: Option<INode>)
    ensures r.None? <==> forall i :: 0 <= i < |entries| ==> entries[i].0 != key
    ensures r.Some? ==> (key, r.value) in entries
  {
    if entries == [] then None
    else if entries[0].0 == key then Some(entries[0].1)
    else Get(entries[1..], key)
  }

  /** Resolves one child by name; a file has no children. */
  function Lookup(n: INode, name: string): (r: Option<INode>)
    ensures n.File? ==> r == None
    ensures n.Folder? ==> (r.None? <==> forall i :: 0 <= i < |n.entries| ==> n.entries[i].0 != name)
    ensures r.Some? ==> n.Folder? && (name, r.value) in n.entries
  {
    match n
    case File(_, _, _) => None
    case Folder(_, _, entries) => Get(entries, name)
  }

  /** With unique keys the lookup returns exactly the entry stored under the name. */
  lemma LookupExact(n: INode, name: string, c: INode)
    requires n.Folder? && Ordered(n.entries)
    ensures Lookup(n, name) == Some(c) <==> (name, c) in n.entries
  {
    if (name, c) in n.entries {
      var i :| 0 <= i < |n.entries| && n.entries[i] == (name, c);
      var r := Lookup(n, name);
      var j :| 0 <= j < |n.entries| && n.entries[j] == (name, r.value);
      if i != j {
        if i < j { StrLessIrreflexive(name); } else { StrLessIrreflexive(name); }
      }
    }
  }

  /** The table: the root and every inode of the tree in collection order. */
  datatype INodeTable = INodeTable(root: INode, table: seq<INode>)

  /** The root of an empty mount: a folder "/" with inode number 0 and no entries. */
  const EmptyRoot: INode := Folder(0, "/", [])

  /** A table holding only the empty root. */
  function New(): (t: INodeTable)
    ensures t.table == [t.root] && t.root == Folder(0, "/", [])
  {
    INodeTable(EmptyRoot, [EmptyRoot])
  }

  /**
    The order in which the stack traversal collects the tree: the node
    itself, then its children's subtrees from the last entry to the first,
    since the children are pushed in ascending order and popped from the back.
   */
  function PreOrder(n: INode): (s: seq<INode>)
    decreases n, 1
  {
    match n
    case File(_, _, _) => [n]
    case Folder(_, _, entries) => [n] + Descending(n, |entries|)
  }

  /** The subtrees of the first `k` entries of folder `n`, entry `k-1` first. */
  function Descending(n: INode, k: nat): (s: seq<INode>)
    requires n.Folder? && k <= |n.entries|
    decreases n, 0, k
  {
    if k == 0 then [] else PreOrder(n.entries[k - 1].1) + Descending(n, k - 1)
  }

  /** The traversal order of a stack whose top is its last element. */
  function Pending(stack: seq<INode>): seq<INode>
  {
    if stack == [] then [] else PreOrder(stack[|stack| - 1]) + Pending(stack[..|stack| - 1])
  }

  /** Pushing `x` puts its whole subtree in front of what was pending. */
  lemma PendingPush(stack: seq<INode>, x: INode)
    ensures Pending(stack + [x]) == PreOrder(x) + Pending(stack)
  {
    DropLast(stack, x);
  }

  /** Every occurrence of a node in the tree, counted once per occurrence. */
  function Nodes(n: INode): multiset<INode>
    decreases n, 1
  {
    match n
    case File(_, _, _) => multiset{n}
    case Folder(_, _, entries) => multiset{n} + NodesBelow(n, |entries|)
  }

  /** The nodes below the first `k` entries of folder `n`. */
  function NodesBelow(n: INode, k: nat): multiset<INode>
    requires n.Folder? && k <= |n.entries|
    decreases n, 0, k
  {
    if k == 0 then multiset{} else Nodes(n.entries[k - 1].1) + NodesBelow(n, k - 1)
  }

  /** Pushes the children of `n` onto the stack in ascending key order. */
  method PushEntries(stack: seq<INode>, n: INode) returns (s: seq<INode>)
    requires n.Folder?
    ensures s == stack + Children(n, |n.entries|)
    ensures Pending(s) == Descending(n, |n.entries|) + Pending(stack)
  {
    s := stack;
    var j := 0;
    while j < |n.entries|
      invariant j <= |n.entries|
      invariant s == stack + Children(n, j)
    {
      Assoc(stack, Children(n, j), [n.entries[j].1]);
      s := s + [n.entries[j].1];
      j := j + 1;
    }
    PendingChildren(stack, n, |n.entries|);
  }

  /** With the children of the first `j` entries pushed, their subtrees are
      pending from entry `j-1` down, on top of what was pending before. */
  lemma {:induction false} PendingChildren(stack: seq<INode>, n: INode, j: nat)
    requires n.Folder? && j <= |n.entries|
    ensures Pending(stack + Children(n, j)) == Descending(n, j) + Pending(stack)
  {
    if j == 0 {
      assert stack + Children(n, 0) == stack;
    } else {
      var c := n.entries[j - 1].1;
      PendingChildren(stack, n, j - 1);
      Assoc(stack, Children(n, j - 1), [c]);
      PendingPush(stack + Children(n, j - 1), c);
      assert Descending(n, j) == PreOrder(c) + Descending(n, j - 1);
      Assoc(PreOrder(c), Descending(n, j - 1), Pending(stack));
    }
  }

  /** The children of the first `j` entries of folder `n`, in ascending key order. */
  function Children(n: INode, j: nat): (c: seq<INode>)
    requires n.Folder? && j <= |n.entries|
    ensures |c| == j && forall k :: 0 <= k < j ==> c[k] == n.entries[k].1
  {
    if j == 0 then [] else Children(n, j - 1) + [n.entries[j - 1].1]
  }

  /** One round of the traversal: collecting the popped node and pushing its
      children leaves the overall traversal order unchanged. */
  lemma CollectStep(done: seq<INode>, current: INode, rest: seq<INode>, pushed: seq<INode>)
    requires current.File? ==> pushed == rest
    requires current.Folder? ==>
               Pending(pushed) == Descending(current, |current.entries|) + Pending(rest)
    ensures (done + [current]) + Pending(pushed) == done + Pending(rest + [current])
  {
    CollectHead(current, rest, pushed);
    Regroup(done, current, Pending(pushed), Pending(rest + [current]));
  }

  /** Collecting `current` and pushing its children leaves its subtree pending. */
  lemma CollectHead(current: INode, rest: seq<INode>, pushed: seq<INode>)
    requires current.File? ==> pushed == rest
    requires current.Folder? ==>
               Pending(pushed) == Descending(current, |current.entries|) + Pending(rest)
    ensures [current] + Pending(pushed) == Pending(rest + [current])
  {
    PendingPush(rest, current);
    if current.Folder? {
      assert PreOrder(current) == [current] + Descending(current, |current.entries|);
      Assoc([current], Descending(current, |current.entries|), Pending(rest));
    }
  }

  /**
    Flattens the tree: pops the last inode of the stack, collects it and
    pushes its children in ascending key order, until the stack is empty.
    The table starts with the root and is the traversal order `PreOrder`.
   */
  method From(root: INode) returns (t: INodeTable)
    ensures t.root == root && t.table == PreOrder(root)
    ensures |t.table| > 0 && t.table[0] == root
    ensures multiset(t.table) == Nodes(root)
  {
    var stack := [root];
    var collect: seq<INode> := [];
    PendingPush([], root);
    while stack != []
      invariant collect + Pending(stack) == PreOrder(root)
      decreases |PreOrder(root)| - |collect|
    {
      ghost var before := stack;
      ghost var done := collect;
      var current := stack[|stack| - 1];
      stack := stack[..|stack| - 1];
      ghost var rest := stack;
      SplitLast(before);
      collect := collect + [current];
      if current.Folder? {
        stack := PushEntries(stack, current);
      }
      CollectStep(done, current, rest, stack);
    }
    t := INodeTable(root, collect);
    PreOrderNodes(root);
  }

  /** The table from `New` is the flattening of its empty root. */
  lemma NewIsFromEmptyRoot()
    ensures New().table == PreOrder(EmptyRoot)
  {
  }

  /** The collection holds each occurrence of a tree node exactly once. */
  lemma {:induction false} PreOrderNodes(n: INode)
    ensures multiset(PreOrder(n)) == Nodes(n)
    decreases n, 1
  {
    match n
    case File(_, _, _) =>
    case Folder(_, _, entries) =>
      DescendingNodes(n, |entries|);
  }

  lemma {:induction false} DescendingNodes(n: INode, k: nat)
    requires n.Folder? && k <= |n.entries|
    ensures multiset(Descending(n, k)) == NodesBelow(n, k)
    decreases n, 0, k
  {
    if k > 0 {
      var c := n.entries[k - 1].1;
      PreOrderNodes(c);
      DescendingNodes(n, k - 1);
      assert Descending(n, k) == PreOrder(c) + Descending(n, k - 1);
    }
  }

  /** The subtrees of entries `k..m-1` of folder `n`, entry `m-1` first. */
  function Between(n: INode, k: nat, m: nat): seq<INode>
    requires n.Folder? && k <= m <= |n.entries|
    decreases m - k
  {
    if k == m then [] else PreOrder(n.entries[m - 1].1) + Between(n, k, m - 1)
  }

  /** The listing of the first `m` entries splits at any `k <= m`. */
  lemma {:induction false} DescendingSplit(n: INode, k: nat, m: nat)
    requires n.Folder? && k <= m <= |n.entries|
    ensures Descending(n, m) == Between(n, k, m) + Descending(n, k)
    decreases m - k
  {
    if k < m {
      DescendingSplit(n, k, m - 1);
      Assoc(PreOrder(n.entries[m - 1].1), Between(n, k, m - 1), Descending(n, k));
    }
  }

  /** The lengths of adjacent ranges of entries add up. */
  lemma {:induction false} BetweenLength(n: INode, k: nat, l: nat, m: nat)
    requires n.Folder? && k <= l <= m <= |n.entries|
    ensures |Between(n, k, m)| == |Between(n, l, m)| + |Between(n, k, l)|
    decreases m - l
  {
    if l < m {
      BetweenLength(n, k, l, m - 1);
    }
  }

  /** Where the subtree of entry `i` of folder `n` starts in `PreOrder(n)`:
      after the folder and the subtrees of all entries with greater keys. */
  function Offset(n: INode, i: nat): nat
    requires n.Folder? && i < |n.entries|
  {
    1 + |Between(n, i + 1, |n.entries|)|
  }

  /**
    Layout of the table: a folder comes first, each child's subtree follows
    it as one contiguous block, and a child with a greater key has its
    block before that of a child with a smaller key.
   */
  lemma Layout(n: INode, i: nat, j: nat)
    requires n.Folder? && Ordered(n.entries) && i < |n.entries| && j < |n.entries|
    requires StrLess(n.entries[i].0, n.entries[j].0)
    ensures PreOrder(n)[0] == n && 1 <= Offset(n, i) && 1 <= Offset(n, j)
    ensures Offset(n, i) + |PreOrder(n.entries[i].1)| <= |PreOrder(n)|
    ensures PreOrder(n)[Offset(n, i)..Offset(n, i) + |PreOrder(n.entries[i].1)|] == PreOrder(n.entries[i].1)
    ensures Offset(n, j) + |PreOrder(n.entries[j].1)| <= Offset(n, i)
  {
    BlockAt(n, i);
    assert i < j by {
      OrderedPositions(n.entries, i, j);
    }
    assert |Between(n, i + 1, |n.entries|)| == |Between(n, j, |n.entries|)| + |Between(n, i + 1, j)| by {
      BetweenLength(n, i + 1, j, |n.entries|);
    }
    assert |Between(n, j, |n.entries|)| == |Between(n, j + 1, |n.entries|)| + |PreOrder(n.entries[j].1)| by {
      BetweenLength(n, j, j + 1, |n.entries|);
      assert Between(n, j, j + 1) == PreOrder(n.entries[j].1) + Between(n, j, j);
    }
  }

  /** The subtree of entry `i` sits at `Offset(n, i)` as one block. */
  lemma BlockAt(n: INode, i: nat)
    requires n.Folder? && i < |n.entries|
    ensures PreOrder(n)[0] == n
    ensures Offset(n, i) + |PreOrder(n.entries[i].1)| <= |PreOrder(n)|
    ensures PreOrder(n)[Offset(n, i)..Offset(n, i) + |PreOrder(n.entries[i].1)|] == PreOrder(n.entries[i].1)
  {
    var greater := Between(n, i + 1, |n.entries|);
    var block := PreOrder(n.entries[i].1);
    assert PreOrder(n) == [n] + Descending(n, |n.entries|);
    DescendingSplit(n, i + 1, |n.entries|);
    assert Descending(n, i + 1) == block + Descending(n, i);
    Middle(PreOrder(n), [n], greater, block, Descending(n, i));
  }

  // The inodes of the repository's sample tree, named as in its fixture.
  const Hosts: INode := File(3, "hosts", "/etc/hosts")
  const Passwd: INode := File(4, "passwd", "/etc/passwd")
  const Shadow: INode := File(5, "shadow", "/etc/shadow")
  const Group: INode := File(6, "group", "/etc/group")
  const Subfile: INode := File(8, "subfile", "/etc/subfile")
  const Subfolder: INode := Folder(7, "subfolder", [("subfile", Subfile)])
  const Etc: INode := Folder(2, "etc", [("group", Group), ("hosts", Hosts), ("passwd", Passwd),
                                        ("shadow", Shadow), ("subfolder", Subfolder)])

  /** The repository's sample tree: 8 inodes numbered 1 to 8 under root 1. */
  function FakeINodeTree(): INode
  {
    Folder(1, "/", [("etc", Etc)])
  }

  /** The inode numbers of a table, in table order. */
  function Inos(s: seq<INode>): (r: seq<u64>)
    ensures |r| == |s|
  {
    if s == [] then [] else [s[0].ino] + Inos(s[1..])
  }

  /** The sample tree keeps every folder's entries in ascending key order. */
  lemma FakeTreeWellFormed()
    ensures WellFormed(FakeINodeTree())
  {
    var keys := ["group", "hosts", "passwd", "shadow", "subfolder"];
    assert forall i :: 0 <= i < 5 ==> Etc.entries[i].0 == keys[i];
    assert WellFormed(Subfolder);
    assert forall i :: 0 <= i < 5 ==> WellFormed(Etc.entries[i].1);
    assert StrLess("group", "hosts") && StrLess("hosts", "passwd");
    assert StrLess("passwd", "shadow") && StrLess("shadow", "subfolder");
    assert forall i, j :: 0 <= i < j < 5 ==> StrLess(keys[i], keys[j]) by {
      forall i, j | 0 <= i < j < 5 ensures StrLess(keys[i], keys[j]) {
        StrLessChain(keys, i, j);
      }
    }
  }

  /** The listing below "etc": its entries from the greatest key down. */
  lemma EtcListing()
    ensures Descending(Etc, 5) == [Subfolder, Subfile, Shadow, Passwd, Hosts, Group]
  {
    assert Descending(Etc, 1) == [Group];
    assert Descending(Etc, 2) == [Hosts, Group];
    assert Descending(Etc, 3) == [Passwd, Hosts, Group];
    assert Descending(Etc, 4) == [Shadow, Passwd, Hosts, Group];
    assert Descending(Subfolder, 1) == [Subfile];
  }

  lemma FakeTableInos(table: seq<INode>)
    requires table == [FakeINodeTree(), Etc, Subfolder, Subfile, Shadow, Passwd, Hosts, Group]
    ensures Inos(table) == [1, 2, 7, 8, 5, 4, 3, 6]
  {
    assert Inos(table[6..]) == [3, 6];
    assert Inos(table[4..]) == [5, 4, 3, 6];
    assert Inos(table[2..]) == [7, 8, 5, 4, 3, 6];
  }

  /** On the sample tree the table has 8 entries: root, etc, then etc's
      entries from "subfolder" down to "group". */
  lemma FakeTreeTable()
    ensures |PreOrder(FakeINodeTree())| == 8
    ensures Inos(PreOrder(FakeINodeTree())) == [1, 2, 7, 8, 5, 4, 3, 6]
  {
    var table := [FakeINodeTree(), Etc, Subfolder, Subfile, Shadow, Passwd, Hosts, Group];
    EtcListing();
    assert PreOrder(FakeINodeTree()) == table;
    FakeTableInos(table);
  }

}

# fs-proxy core in Dafny

fs-proxy is an early FUSE filesystem that exposes a mapping of names to
host paths. This project models its three pieces of logic:

- **The mapping tree** (`mapping.dfy`, module `Mapping`). A `Path` is a
  redirect target (`File`) or a folder that maps names to children.
  `Lookup` walks a list of path components down the tree.
  - The reference walk `Follow` gives lookup an independent meaning.
  - The predicate `CanLookup` is exactly the set of inputs on which the
    source does not panic on `name[0]`.
- **The inode tree and its flattening table** (`inode.dfy`, module
  `Inode`). An `INode` is a file or a folder. A folder's entries are its
  `BTreeMap`, modelled as a strictly ascending association list.
  - `From` is the source's stack loop, written as a method with loop
    invariants. It is proved equal to the traversal function `PreOrder`.
  - Lemmas about `PreOrder` then show:
    - every node occurs exactly once (a multiset equality with `Nodes`);
    - the root comes first;
    - each child's subtree is one contiguous block after its folder;
    - children's blocks appear from the greatest key to the smallest.
- **The request handlers** (`main.dfy`, module `MappingFs`). `Lookup`,
  `GetAttr` and `Read` each map a request to exactly one `Reply`.
  - `ReadDir` is a method over the bounded reply buffer `DirectoryReply`.
    The buffer's `Add` reports when it is full.
  - The loop's result is specified by the function `Listed`. Lemmas about
    `Listed` state the properties readdir pagination relies on:
    - the entries form a run of consecutive positions;
    - each entry's cookie is its position plus one;
    - the listing stops at the first entry that does not fit;
    - resuming from the last cookie continues with no gap and no repeat.

`seqs.dfy` holds generic sequence lemmas, `ints.dfy` the fixed-width
integer types and `wrappers.dfy` the `Option` type.

What the handlers do:
- readdir lists the flat `MappingFS` map, with no "." or ".." entries, in
  hash-map order.
- lookup, getattr and read serve a fixed "hello.txt" file.
- There is no open or release handler.
- read ignores `size` and does no host I/O.

## Model

| member | source | states |
|---|---|---|
| Mapping.Iter | src/mapping.rs:21-38 | a file starts an iteration with an empty stack; a folder starts it with exactly one iterator, over its own map |
| Mapping.Lookup | src/mapping.rs:40-58 | lookup answers `Some(t)` exactly when following the components reaches a file, and then `t` is that file's target; it is defined only where no folder is indexed with an empty list |
| Mapping.LookupFileEmpty | src/mapping.rs:42-45 | a file answers the empty component list with its own path |
| Mapping.LookupFileNonEmpty | src/mapping.rs:46-48 | a file answers any non-empty component list with `None` |
| Mapping.LookupFolderStep | src/mapping.rs:49-56 | on a folder, `[c] + rest` is looked up as `rest` in child `c` when `c` is a key, and gives `None` when it is not |
| Mapping.FolderNeedsComponent | src/mapping.rs:50 | a folder cannot be looked up with an empty component list, since `name[0]` panics |
| Mapping.CanLookupIff | src/mapping.rs:40-58 | lookup is defined exactly when the walk does not end on a folder |
| Mapping.FollowAppend | src/mapping.rs:49-52 | following `a + b` is following `a`, then `b` from the node reached, one component per step |
| Mapping.LookupThroughPrefix | src/mapping.rs:49-52 | a successful lookup of `a + b` passes through the folder reached by `a` and succeeds there on `b` with the same target |
| Mapping.FakeMapping | src/mapping.rs:67-90 | the sample mapping has folders "folder1" and "folder2" and file "file1.txt" at the top, with "d1f1.txt" in the first folder and "d2f1.txt" and "d2f2.txt" in the second |
| Mapping.FakeMappingLeaves | src/mapping.rs:67-90 | each of the sample mapping's four files, reached through its folder, redirects to "/tmp/hello.txt" |
| Mapping.TestLookup | src/mapping.rs:101-111 | on the sample mapping, `["folder1","d1f1.txt"]` gives `/tmp/hello.txt` and `["folder1","d1f2.txt"]` gives `None` |
| Inode.Get | src/inode.rs:26 | the map lookup is `None` exactly when no entry has the key, and otherwise returns a value stored under that key |
| Inode.Lookup | src/inode.rs:22-33 | a file never has a child; a folder gives `None` exactly when the name is absent, and otherwise one of its own entries under that name |
| Inode.LookupExact | src/inode.rs:25-31 | in a folder with ordered keys, lookup returns `c` exactly when `(name, c)` is an entry, so no other entry is returned |
| Inode.New | src/inode.rs:42-52 | the new table has the single element `root`, an empty folder named "/" with ino 0 |
| Inode.NewIsFromEmptyRoot | src/inode.rs:42-52 | the new table equals the flattening of its empty root |
| Inode.PushEntries | src/inode.rs:62-66 | the new stack is the old stack followed by the folder's children in ascending key order, so its subtrees are popped in descending key order, on top of what was pending |
| Inode.PendingChildren | src/inode.rs:58-66 | with the children of the first `j` entries pushed on a stack, their subtrees are pending from entry `j-1` down, ahead of what the stack held before |
| Inode.From | src/inode.rs:54-73 | the table stores the input as its root and starts with it; the table is the traversal `PreOrder(root)`, and it holds every node of the tree exactly once |
| Inode.PreOrderNodes | src/inode.rs:58-68 | the traversal holds every node occurrence of the tree exactly once, so its length is the node count |
| Inode.DescendingNodes | src/inode.rs:62-66 | the subtrees of the first `k` entries, listed from entry `k-1` down, hold exactly those entries' nodes |
| Inode.Layout | src/inode.rs:55-66 | a folder comes first in its table; each child's subtree is one contiguous block after it; a child with a greater key has its block entirely before a child with a smaller key |
| Inode.BlockAt | src/inode.rs:58-66 | the subtree of entry `i` sits in the folder's traversal as one block, after the folder and the blocks of all greater keys |
| Inode.FakeTreeWellFormed | src/inode.rs:76-134 | the sample tree's folders have their keys in strictly ascending order, as a `BTreeMap` keeps them |
| Inode.EtcListing | src/inode.rs:112-124 | below "etc" the traversal visits subfolder, subfile, shadow, passwd, hosts, group |
| Inode.FakeTreeTable | src/inode.rs:76-134 | the sample tree flattens to 8 nodes with inos 1, 2, 7, 8, 5, 4, 3, 6: each of 1..8 once, root 1 first |
| MappingFs.AsciiUtf8 | src/main.rs:103 | the bytes `as_bytes` gives for an ASCII text are its whole UTF-8 encoding: as many bytes as the UTF-8 length the entry sizing charges for a name |
| MappingFs.HelloTxtSize | src/main.rs:37-41 | the size 13 in the file's attributes equals the byte length of "Hello World!\n" |
| MappingFs.Lookup | src/main.rs:75-81 | the entry reply with ttl 1s, the file's attributes and generation 0 is sent exactly when `parent == 1` and the name is "hello.txt"; every other request gets ENOENT |
| MappingFs.GetAttr | src/main.rs:83-89 | inode 1 gets the directory's attributes, inode 2 the file's, each exactly, and every other inode gets ENOENT |
| MappingFs.LookupAgreesWithGetAttr | src/main.rs:75-89 | the attributes a successful lookup sends are those getattr sends for the same inode |
| MappingFs.Read | src/main.rs:91-107 | inode 2 gets the content from `offset` on, so the prefix before `offset` plus the data is the whole content; it needs `0 <= offset <= 13`, where the slice does not panic; any other inode gets ENOENT |
| MappingFs.ReadSuffix | src/main.rs:102-103 | the data of inode 2 has every byte from `offset` to the end, whatever `size`, `fh`, `flags` and `lock` are |
| MappingFs.EntrySize | src/main.rs:135 | an entry takes the 24-byte dirent header plus the name's UTF-8 bytes, rounded up to the next multiple of 8 (at most 7 padding bytes) |
| MappingFs.DirectoryReply.Add | src/main.rs:135-137 | add reports full exactly when the entry does not fit; then the buffer is unchanged; otherwise the entry is appended and its size is charged |
| MappingFs.KindOf | src/main.rs:131-134 | a file destination is listed as a regular file and a folder as a directory, each in both directions |
| MappingFs.Skip | src/main.rs:128 | `offset as usize` keeps a non-negative offset and wraps a negative one past every entry |
| MappingFs.ListedStep | src/main.rs:128-137 | from position `i`, the listing is empty when entry `i` does not fit, and otherwise is entry `i` followed by the listing from `i + 1` |
| MappingFs.ListedRun | src/main.rs:128-135 | the entries added are consecutive positions `i, i+1, …` of the mapping; each has its position as inode and its position plus one as cookie |
| MappingFs.ListedStops | src/main.rs:135-137 | the added entries never overflow the buffer, and when the listing stops before the end, the next entry does not fit |
| MappingFs.ListedResume | src/main.rs:128-135 | the last cookie of a listing is the position after its last entry; a second listing from that cookie continues the run with no entry missed and none repeated |
| MappingFs.AddEntries | src/main.rs:128-139 | the loop appends to the buffer exactly the listing from its start position, keeping the buffer within its size |
| MappingFs.ReadDir | src/main.rs:109-140 | any inode but 1 gets ENOENT and the buffer is unchanged; inode 1 gets `Ok` after the listing from position `offset as usize` is appended |

## Left out

- `src/args.rs`: it only derives command-line parsing.
- `main()` (src/main.rs:143-161): the runtime, file opening, JSON decoding, mount options and mounting are process I/O and calls into libraries.
- The serde encoding of `Path` and `MappingConfig` and the `test_serde` round trip: the encoder is generated by a library that is not part of this model.
- `MappingFS::from` (src/main.rs:67-72): it passes a `Path` where the field is declared as a `HashMap<String, Destination>`, so it does not type-check as written. `MappingFS` is modelled with its declared field alone.
- `Destination` is imported from the mapping module (src/main.rs:15), but src/mapping.rs does not define it. The model defines it in module `Mapping` as `File(path) | Folder`, the two cases the readdir match uses.
- The unused `entries` vector in readdir, and the `generators` feature flag.
- `PathIter` has no `Iterator` implementation, so only its construction is modelled.
- `Rc<RefCell<…>>` sharing and borrow checking: the tree is a plain inductive value. The table holds copies of the nodes, not shared handles.
- The hash map's iteration order is unspecified. The mapping is a sequence in the order the iterator yields, taken as fixed between calls.
- Timestamps, the TTL and the uid/gid are constants. No clock is read.
- Names arrive as OS strings. Non-UTF-8 names (`to_str()` giving `None`) are not modelled: names are `string` values.
- MappingFs.DirectoryReply.Add: entry sizes use the FUSE `fuse_dirent` layout (a 24-byte header plus the name's UTF-8 bytes, padded to 8). This layout is inside the `fuser` library, which is not part of this model.
- MappingFs.AddEntries: the casts `i as u64` and `(i + 1) as i64` are not wrapped. The model assumes fewer than 2^63 mapping entries.
- MappingFs.ListedResume: the second listing's offset is the cookie as an unbounded integer. It is the same `i64` value passed back only when the mapping has fewer than 2^63 entries.
- MappingFs.Read: the slice with an offset outside `0..=13` panics in the source. The model excludes that input by precondition instead of modelling the panic.
- Open and release handlers, a handle registry and host file I/O do not exist in this code.

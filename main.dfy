/**
  The request handlers of the mapping filesystem. Each handler picks exactly
  one reply for its request; a reply is a value of `Reply`, and the
  directory listing is written into a bounded `DirectoryReply` buffer.
 */
module MappingFs {

  import opened Wrappers
  import opened Ints
  import opened Seqs
  import Mapping

  datatype FileType = Directory | RegularFile

  /** Timestamps are never computed; every attribute carries the epoch. */
  datatype SystemTime = UnixEpoch

  /** The attribute cache lifetime sent with every attribute reply. */
  datatype Duration = Duration(secs: nat)

  datatype FileAttr = FileAttr(
    ino: u64, size: u64, blocks: u64,
    atime: SystemTime, mtime: SystemTime, ctime: SystemTime, crtime: SystemTime,
    kind: FileType, perm: u16, nlink: u32, uid: u32, gid: u32,
    rdev: u32, flags: u32, blksize: u32)

  /** The single reply a handler sends for one request. */
  datatype Reply =
    | Entry(ttl: Duration, attr: FileAttr, generation: u64)
    | Attr(ttl: Duration, attr: FileAttr)
    | Data(data: seq<byte>)
    | Ok
    | Error(errno: i32)

  /** "No such file or directory" in the Linux errno numbering. */
  const ENOENT: i32 := 2

  const TTL: Duration := Duration(1)

  /** The root directory: inode 1, mode 0o755 (= 0x1ED), two links. */
  const HelloDirAttr: FileAttr := FileAttr(
    1, 0, 0, UnixEpoch, UnixEpoch, UnixEpoch, UnixEpoch,
    Directory, 0x1ED, 2, 501, 20, 0, 0, 512)

  /** The one regular file: inode 2, 13 bytes, mode 0o644 (= 0x1A4). */
  const HelloTxtAttr: FileAttr := FileAttr(
    2, 13, 1, UnixEpoch, UnixEpoch, UnixEpoch, UnixEpoch,
    RegularFile, 0x1A4, 1, 501, 20, 0, 0, 512)

  /** The bytes of an ASCII string (`as_bytes`), one byte per character. */
  function AsciiBytes(s: string): (b: seq<byte>)
    requires forall i :: 0 <= i < |s| ==> s[i] < 128 as char
    ensures |b| == |s| && forall i :: 0 <= i < |s| ==> b[i] == s[i] as int
  {
    seq(|s|, i requires 0 <= i < |s| => s[i] as int)
  }

  /** The bytes of an ASCII string are its whole UTF-8 encoding: every
      character takes one byte. */
  lemma {:induction false} AsciiUtf8(s: string)
    requires forall i :: 0 <= i < |s| ==> s[i] < 128 as char
    ensures |AsciiBytes(s)| == Utf8Length(s)
    decreases |s|
  {
    if s != [] {
      AsciiUtf8(s[1..]);
    }
  }

  const HelloTxtContent: seq<byte> := AsciiBytes("Hello World!\n")

  /** The attribute size of the file agrees with the content it serves. */
  lemma HelloTxtSize()
    ensures HelloTxtAttr.size == |HelloTxtContent| == 13
  {
  }

  /**
    The filesystem: the entries of its name-to-destination hash map, in the
    order the map's iterator yields them (unspecified, but fixed for a map
    that is not changed).
   */
  datatype MappingFS = MappingFS(mapping: seq<(string, Mapping.Destination)>)

  /** A name lookup succeeds only for "hello.txt" in the root directory. */
  function Lookup(fs: MappingFS, parent: u64, name: string): (r: Reply)
    ensures r.Entry? <==> parent == 1 && name == "hello.txt"
    ensures r.Entry? ==> r.ttl == TTL && r.attr == HelloTxtAttr && r.generation == 0
    ensures !r.Entry? ==> r == Error(ENOENT)
  {
    if parent == 1 && name == "hello.txt" then Entry(TTL, HelloTxtAttr, 0) else Error(ENOENT)
  }

  /** Attributes exist for inode 1 (the directory) and inode 2 (the file) only. */
  function GetAttr(fs: MappingFS, ino: u64): (r: Reply)
    ensures r == Attr(TTL, HelloDirAttr) <==> ino == 1
    ensures r == Attr(TTL, HelloTxtAttr) <==> ino == 2
    ensures r == Error(ENOENT) <==> ino != 1 && ino != 2
  {
    match ino
    case 1 => Attr(TTL, HelloDirAttr)
    case 2 => Attr(TTL, HelloTxtAttr)
    case _ => Error(ENOENT)
  }

  /** The attributes a successful lookup reports are those `GetAttr` gives for its inode. */
  lemma LookupAgreesWithGetAttr(fs: MappingFS, parent: u64, name: string)
    requires Lookup(fs, parent, name).Entry?
    ensures GetAttr(fs, Lookup(fs, parent, name).attr.ino) == Attr(TTL, Lookup(fs, parent, name).attr)
  {
  }

  /**
    Reading inode 2 returns the content from `offset` to its end, whatever
    `size` and the handle are. The slice panics for an offset outside
    `0..=13` (a negative `i64` turns into a huge `usize`), so the caller
    must stay within it. Any other inode gets ENOENT.
   */
  function Read(fs: MappingFS, ino: u64, fh: u64, offset: i64, size: u32, flags: i32,
                lock: Option<u64>): (r: Reply)
    requires ino == 2 ==> 0 <= offset <= |HelloTxtContent|
    ensures ino == 2 ==> r.Data? && HelloTxtContent[..offset] + r.data == HelloTxtContent
    ensures ino != 2 ==> r == Error(ENOENT)
  {
    if ino == 2 then Data(HelloTxtContent[offset..]) else Error(ENOENT)
  }

  /** A read of inode 2 returns every byte from `offset` to the end, in
      place: `size` never shortens it. */
  lemma ReadSuffix(fs: MappingFS, fh: u64, offset: i64, size: u32, flags: i32, lock: Option<u64>)
    requires 0 <= offset <= |HelloTxtContent|
    ensures |Read(fs, 2, fh, offset, size, flags, lock).data| == |HelloTxtContent| - offset
    ensures forall i :: 0 <= i < |HelloTxtContent| - offset ==>
              Read(fs, 2, fh, offset, size, flags, lock).data[i] == HelloTxtContent[offset + i]
  {
    var d := Read(fs, 2, fh, offset, size, flags, lock).data;
    assert HelloTxtContent[..offset] + d == HelloTxtContent;
    forall i | 0 <= i < |HelloTxtContent| - offset
      ensures d[i] == HelloTxtContent[offset + i]
    {
      assert (HelloTxtContent[..offset] + d)[offset + i] == d[i];
    }
  }

  /** One directory entry as the kernel receives it. */
  datatype DirEntry = DirEntry(ino: int, offset: int, kind: FileType, name: string)

  /** The number of bytes the UTF-8 encoding of `s` takes. */
  function Utf8Length(s: string): (n: nat)
    ensures n >= |s|
  {
    if s == [] then 0
    else var c := s[0] as int;
      (if c < 0x80 then 1 else if c < 0x800 then 2 else if c < 0x1_0000 then 3 else 4)
      + Utf8Length(s[1..])
  }

  /** The buffer space one entry takes: the FUSE `fuse_dirent` header (24 bytes)
      and the name, padded to a multiple of 8 bytes. */
  function EntrySize(name: string): (n: nat)
    ensures n >= 24 && n % 8 == 0
    ensures 24 + Utf8Length(name) <= n < 24 + Utf8Length(name) + 8
  {
    (24 + Utf8Length(name) + 7) / 8 * 8
  }

  /** The buffer space a list of entries takes. */
  function EntriesSize(entries: seq<DirEntry>): nat
  {
    if entries == [] then 0
    else EntriesSize(entries[..|entries| - 1]) + EntrySize(entries[|entries| - 1].name)
  }

  lemma EntriesSizeAppend(entries: seq<DirEntry>, e: DirEntry)
    ensures EntriesSize(entries + [e]) == EntriesSize(entries) + EntrySize(e.name)
  {
    DropLast(entries, e);
  }

  /** The directory reply buffer: entries are added until the next one no longer fits. */
  class DirectoryReply {
    const maxSize: nat
    var entries: seq<DirEntry>
    var used: nat

    ghost predicate Valid()
      reads this
    {
      used == EntriesSize(entries) && used <= maxSize
    }

    constructor (maxSize: nat)
      ensures Valid() && this.maxSize == maxSize && entries == []
    {
      this.maxSize := maxSize;
      entries := [];
      used := 0;
    }

    /** Adds an entry unless it does not fit; reports `true` when the buffer is full. */
    method Add(ino: int, offset: int, kind: FileType, name: string) returns (full: bool)
      requires Valid()
      modifies this
      ensures Valid()
      ensures full <==> old(used) + EntrySize(name) > maxSize
      ensures used == if full then old(used) else old(used) + EntrySize(name)
      ensures entries == if full then old(entries) else old(entries) + [DirEntry(ino, offset, kind, name)]
    {
      var size := EntrySize(name);
      full := used + size > maxSize;
      if !full {
        EntriesSizeAppend(entries, DirEntry(ino, offset, kind, name));
        entries := entries + [DirEntry(ino, offset, kind, name)];
        used := used + size;
      }
    }
  }

  /** The file type listed for a destination. */
  function KindOf(d: Mapping.Destination): (k: FileType)
    ensures k == RegularFile <==> d.File?
    ensures k == Directory <==> d.Folder?
  {
    match d
    case File(_) => RegularFile
    case Folder => Directory
  }

  /** The `i`-th entry of the full listing: the iteration index as inode and
      the index of the next entry as its cookie. */
  function EntryAt(mapping: seq<(string, Mapping.Destination)>, i: nat): DirEntry
    requires i < |mapping|
  {
    DirEntry(i, i + 1, KindOf(mapping[i].1), mapping[i].0)
  }

  /** `listed` is the run of the full listing that starts at index `i`. */
  ghost predicate Run(mapping: seq<(string, Mapping.Destination)>, i: nat, listed: seq<DirEntry>)
  {
    && (listed != [] ==> i + |listed| <= |mapping|)
    && forall k :: i <= k < i + |listed| ==> listed[k - i] == EntryAt(mapping, k)
  }

  /** `offset as usize`: a negative offset wraps around to a huge count. */
  function Skip(offset: i64): (n: nat)
    ensures offset >= 0 ==> n == offset
    ensures offset < 0 ==> n >= 0x8000_0000_0000_0000
  {
    if offset >= 0 then offset else offset + 0x1_0000_0000_0000_0000
  }

  /**
    The entries a listing adds when it starts at index `i` with `used` bytes
    of the buffer taken: entries in order until one does not fit.
   */
  function Listed(mapping: seq<(string, Mapping.Destination)>, i: nat, used: nat, maxSize: nat): seq<DirEntry>
    decreases |mapping| - i
  {
    if i >= |mapping| then []
    else
      var e := EntryAt(mapping, i);
      if used + EntrySize(e.name) > maxSize then []
      else [e] + Listed(mapping, i + 1, used + EntrySize(e.name), maxSize)
  }

  /** One entry of the listing: the entry added first, or nothing when it does not fit. */
  lemma ListedStep(mapping: seq<(string, Mapping.Destination)>, i: nat, used: nat, maxSize: nat)
    requires i < |mapping|
    ensures used + EntrySize(mapping[i].0) > maxSize ==> Listed(mapping, i, used, maxSize) == []
    ensures used + EntrySize(mapping[i].0) <= maxSize ==>
              Listed(mapping, i, used, maxSize)
              == [EntryAt(mapping, i)] + Listed(mapping, i + 1, used + EntrySize(mapping[i].0), maxSize)
  {
  }

  /** The buffer space of a list of entries, counted from its first entry. */
  lemma {:induction false} EntriesSizeCons(e: DirEntry, entries: seq<DirEntry>)
    ensures EntriesSize([e] + entries) == EntrySize(e.name) + EntriesSize(entries)
    decreases |entries|
  {
    if entries == [] {
      assert [e] + entries == [e];
      assert [e][..0] == [];
    } else {
      var init, last := entries[..|entries| - 1], entries[|entries| - 1];
      SplitLast(entries);
      EntriesSizeCons(e, init);
      Assoc([e], init, [last]);
      EntriesSizeAppend([e] + init, last);
      EntriesSizeAppend(init, last);
    }
  }

  /**
    A listing is a run of consecutive entries of the full listing that
    starts at index `i`; so each entry carries its index as inode and the
    index of the next entry as its cookie.
   */
  lemma {:induction false} ListedRun(mapping: seq<(string, Mapping.Destination)>, i: nat, used: nat, maxSize: nat)
    ensures Run(mapping, i, Listed(mapping, i, used, maxSize))
    decreases |mapping| - i
  {
    if i < |mapping| && used + EntrySize(mapping[i].0) <= maxSize {
      var next := used + EntrySize(mapping[i].0);
      ListedStep(mapping, i, used, maxSize);
      ListedRun(mapping, i + 1, next, maxSize);
      RunCons(mapping, i, Listed(mapping, i + 1, next, maxSize));
    } else {
      assert Listed(mapping, i, used, maxSize) == [];
    }
  }

  /** A run preceded by the entry just before it. */
  lemma RunCons(mapping: seq<(string, Mapping.Destination)>, i: nat, rest: seq<DirEntry>)
    requires i < |mapping| && Run(mapping, i + 1, rest)
    ensures Run(mapping, i, [EntryAt(mapping, i)] + rest)
  {
    var listed := [EntryAt(mapping, i)] + rest;
    forall k | i <= k < i + |listed|
      ensures listed[k - i] == EntryAt(mapping, k)
    {
      if k > i {
        assert listed[k - i] == rest[k - (i + 1)];
      }
    }
  }

  /** Two adjacent runs make one. */
  lemma RunJoin(mapping: seq<(string, Mapping.Destination)>, i: nat, first: seq<DirEntry>, second: seq<DirEntry>)
    requires Run(mapping, i, first) && Run(mapping, i + |first|, second)
    ensures Run(mapping, i, first + second)
  {
    var listed := first + second;
    forall k | i <= k < i + |listed|
      ensures listed[k - i] == EntryAt(mapping, k)
    {
      if k < i + |first| {
        assert listed[k - i] == first[k - i];
      } else {
        assert listed[k - i] == second[k - (i + |first|)];
      }
    }
  }

  /**
    A listing never overflows the buffer, and it stops exactly at the
    first entry that does not fit.
   */
  lemma {:induction false} ListedStops(mapping: seq<(string, Mapping.Destination)>, i: nat, used: nat, maxSize: nat)
    requires used <= maxSize
    ensures used + EntriesSize(Listed(mapping, i, used, maxSize)) <= maxSize
    ensures var listed := Listed(mapping, i, used, maxSize);
            i + |listed| < |mapping| ==>
              used + EntriesSize(listed) + EntrySize(mapping[i + |listed|].0) > maxSize
    decreases |mapping| - i
  {
    if i >= |mapping| {
      assert Listed(mapping, i, used, maxSize) == [];
    } else if used + EntrySize(mapping[i].0) > maxSize {
      assert Listed(mapping, i, used, maxSize) == [] by {
        ListedStep(mapping, i, used, maxSize);
      }
    } else {
      var next := used + EntrySize(mapping[i].0);
      var rest := Listed(mapping, i + 1, next, maxSize);
      assert Listed(mapping, i, used, maxSize) == [EntryAt(mapping, i)] + rest by {
        ListedStep(mapping, i, used, maxSize);
      }
      assert used + EntriesSize([EntryAt(mapping, i)] + rest) == next + EntriesSize(rest) by {
        EntriesSizeCons(EntryAt(mapping, i), rest);
      }
      ListedStops(mapping, i + 1, next, maxSize);
    }
  }

  /**
    A second listing started at the last cookie of a first one resumes at
    the very next entry: together they are one run of the full listing,
    with no entry missed and none repeated.
   */
  lemma ListedResume(mapping: seq<(string, Mapping.Destination)>, i: nat, used: nat, used2: nat, maxSize: nat)
    requires Listed(mapping, i, used, maxSize) != []
    ensures var first := Listed(mapping, i, used, maxSize);
            first[|first| - 1].offset == i + |first| &&
            Run(mapping, i, first + Listed(mapping, i + |first|, used2, maxSize))
  {
    var first := Listed(mapping, i, used, maxSize);
    ListedRun(mapping, i, used, maxSize);
    var last := i + |first| - 1;
    assert first[last - i] == EntryAt(mapping, last);
    ListedRun(mapping, i + |first|, used2, maxSize);
    RunJoin(mapping, i, first, Listed(mapping, i + |first|, used2, maxSize));
  }


  /** The loop of `ReadDir` stops without adding when the next entry does not fit. */
  lemma ListedFull(mapping: seq<(string, Mapping.Destination)>, i: nat, used: nat, maxSize: nat,
                   added: seq<DirEntry>, goal: seq<DirEntry>)
    requires i < |mapping| && used + EntrySize(mapping[i].0) > maxSize
    requires goal == added + Listed(mapping, i, used, maxSize)
    ensures goal == added
  {
    ListedStep(mapping, i, used, maxSize);
  }

  /** The loop of `ReadDir` adds the next entry when it fits. */
  lemma ListedAdvance(mapping: seq<(string, Mapping.Destination)>, i: nat, used: nat, maxSize: nat,
                      added: seq<DirEntry>, goal: seq<DirEntry>)
    requires i < |mapping| && used + EntrySize(mapping[i].0) <= maxSize
    requires goal == added + Listed(mapping, i, used, maxSize)
    ensures goal == (added + [DirEntry(i, i + 1, KindOf(mapping[i].1), mapping[i].0)])
                    + Listed(mapping, i + 1, used + EntrySize(mapping[i].0), maxSize)
  {
    ListedStep(mapping, i, used, maxSize);
    Regroup(added, EntryAt(mapping, i), Listed(mapping, i + 1, used + EntrySize(mapping[i].0), maxSize),
            Listed(mapping, i, used, maxSize));
  }

  /** The loop of `ReadDir` has nothing left to add past the end of the mapping. */
  lemma ListedEnd(mapping: seq<(string, Mapping.Destination)>, i: nat, used: nat, maxSize: nat,
                  added: seq<DirEntry>, goal: seq<DirEntry>)
    requires i >= |mapping| ==> goal == added + Listed(mapping, i, used, maxSize)
    requires i < |mapping| ==> goal == added
    ensures goal == added
  {
    if i >= |mapping| {
      assert Listed(mapping, i, used, maxSize) == [];
      assert added + [] == added;
    }
  }

  /**
    Lists the root directory: skips `offset` entries of the mapping, adds
    each following entry with cookie `index + 1`, stops at the first entry
    the buffer reports full for, and replies `Ok`. Any other inode gets
    ENOENT and the buffer is left untouched.
   */
  method ReadDir(fs: MappingFS, ino: u64, fh: u64, offset: i64, reply: DirectoryReply) returns (r: Reply)
    requires reply.Valid()
    modifies reply
    ensures reply.Valid()
    ensures ino != 1 ==> r == Error(ENOENT) && reply.entries == old(reply.entries)
    ensures ino == 1 ==> r == Ok
    ensures ino == 1 ==>
              reply.entries == old(reply.entries) + Listed(fs.mapping, Skip(offset), old(reply.used), reply.maxSize)
  {
    if ino != 1 {
      return Error(ENOENT);
    }
    AddEntries(fs.mapping, Skip(offset), reply);
    r := Ok;
  }

  /**
    The loop of `ReadDir`: adds the entries of the mapping from index
    `start` on, each with cookie `index + 1`, and stops at the first one
    the buffer reports full for.
   */
  method AddEntries(mapping: seq<(string, Mapping.Destination)>, start: nat, reply: DirectoryReply)
    requires reply.Valid()
    modifies reply
    ensures reply.Valid()
    ensures reply.entries == old(reply.entries) + Listed(mapping, start, old(reply.used), reply.maxSize)
  {
    ghost var goal := reply.entries + Listed(mapping, start, reply.used, reply.maxSize);
    var i := start;
    while i < |mapping|
      invariant reply.Valid()
      invariant goal == reply.entries + Listed(mapping, i, reply.used, reply.maxSize)
      decreases |mapping| - i
    {
      ghost var before, usedBefore := reply.entries, reply.used;
      var full := reply.Add(i, i + 1, KindOf(mapping[i].1), mapping[i].0);
      if full {
        ListedFull(mapping, i, usedBefore, reply.maxSize, before, goal);
        break;
      }
      ListedAdvance(mapping, i, usedBefore, reply.maxSize, before, goal);
      i := i + 1;
    }
    ListedEnd(mapping, i, reply.used, reply.maxSize, reply.entries, goal);
  }

}

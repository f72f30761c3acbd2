/** Files as byte sequences: reading, rewriting, appending, and access at an offset. */
module FsFiles {
  import opened Machine
  import opened FsLayout
  import opened FsEntries
  import opened FsTree

  const SIMPLEFS_MAX_OPEN_FILES := 8

  /** What reading `limit` bytes at `offset` gives. */
  function Slice(data: seq<Byte>, offset: nat, limit: nat): seq<Byte> {
    if offset >= |data| then []
    else data[offset..if |data| - offset > limit then offset + limit else |data|]
  }

  /** `old` with `data` written at `offset`; a gap before it is filled with zeros. */
  function Splice(old_: seq<Byte>, offset: nat, data: seq<Byte>): (after: seq<Byte>)
    ensures |after| == if offset + |data| > |old_| then offset + |data| else |old_|
    ensures after[offset..offset + |data|] == data
    ensures forall k :: 0 <= k < |after| && !(offset <= k < offset + |data|) ==>
              after[k] == if k < |old_| then old_[k] else 0
  {
    (if offset <= |old_| then old_[..offset] else old_ + Zeros(offset - |old_|))
    + data
    + (if offset + |data| < |old_| then old_[offset + |data|..] else [])
  }

  /** The bytes a run of descriptor reads returns, one after the other. */
  function ReadRun(data: seq<Byte>, offset: nat, sizes: seq<nat>): seq<Byte>
    decreases |sizes|
  {
    if sizes == [] then []
    else
      var chunk := Slice(data, offset, sizes[0]);
      chunk + ReadRun(data, offset + |chunk|, sizes[1..])
  }

  function Sum(sizes: seq<nat>): nat
    decreases |sizes|
  {
    if sizes == [] then 0 else sizes[0] + Sum(sizes[1..])
  }

  /** However the reads are cut up, together they are one read of their total size. */
  lemma {:induction false} ChunksJoin(data: seq<Byte>, offset: nat, sizes: seq<nat>)
    ensures ReadRun(data, offset, sizes) == Slice(data, offset, Sum(sizes))
    decreases |sizes|
  {
    hide Slice, ReadRun, Sum;
    if sizes == [] {
      NoReads(data, offset);
    } else {
      ChunksJoin(data, offset + |Slice(data, offset, sizes[0])|, sizes[1..]);
      OneMoreRead(data, offset, sizes);
    }
  }

  lemma {:induction false} NoReads(data: seq<Byte>, offset: nat)
    ensures ReadRun(data, offset, []) == Slice(data, offset, Sum([]))
  {
  }

  lemma {:induction false} OneMoreRead(data: seq<Byte>, offset: nat, sizes: seq<nat>)
    requires sizes != []
    requires var next := offset + |Slice(data, offset, sizes[0])|;
             ReadRun(data, next, sizes[1..]) == Slice(data, next, Sum(sizes[1..]))
    ensures ReadRun(data, offset, sizes) == Slice(data, offset, Sum(sizes))
  {
    hide Slice, ReadRun, Sum;
    var first, rest := sizes[0], sizes[1..];
    FirstRead(data, offset, sizes);
    var chunk := Slice(data, offset, first);
    var next := offset + |chunk|;
    SlicesJoin(data, offset, first, Sum(rest));
    calc {
      ReadRun(data, offset, sizes);
      chunk + ReadRun(data, next, rest);
      chunk + Slice(data, next, Sum(rest));
      Slice(data, offset, first + Sum(rest));
    }
  }

  lemma {:induction false} FirstRead(data: seq<Byte>, offset: nat, sizes: seq<nat>)
    requires sizes != []
    ensures ReadRun(data, offset, sizes)
         == Slice(data, offset, sizes[0]) + ReadRun(data, offset + |Slice(data, offset, sizes[0])|, sizes[1..])
    ensures Sum(sizes) == sizes[0] + Sum(sizes[1..])
  {
    hide Slice;
  }

  lemma {:induction false} SlicesJoin(data: seq<Byte>, offset: nat, n: nat, m: nat)
    ensures Slice(data, offset, n) + Slice(data, offset + |Slice(data, offset, n)|, m) == Slice(data, offset, n + m)
  {
  }

  /** Writing at the end of a file appends; writing over all of it replaces it. */
  lemma {:induction false} SpliceAtEnd(old_: seq<Byte>, data: seq<Byte>)
    ensures Splice(old_, |old_|, data) == old_ + data
    ensures |data| >= |old_| ==> Splice(old_, 0, data) == data
  {
  }

  /** Rewriting a file by name, creating it when there is none. */
  function WriteFile(fs: Fs, name: CString, data: seq<Byte>, dirRoom: bool, fileRoom: bool): Outcome
    requires fs.cwd < |fs.dirs| == |fs.kinds| == |fs.files| == SIMPLEFS_MAX_INODES
  {
    if !ValidName(name) || |data| > SIMPLEFS_MAX_FILE_SIZE then Outcome(fs, false)
    else if Lookup(fs, name) < 0 then
      var created := Create(fs, name, dirRoom);
      if !created.ok then created
      else Outcome(Stored(created.fs, FirstFree(fs.kinds, 0), data, fileRoom), fileRoom)
    else if !Names(fs, name, Regular) then Outcome(fs, false)
    else Outcome(Stored(fs, fs.dirs[fs.cwd][Lookup(fs, name)].inode, data, fileRoom), fileRoom)
  }

  /** A rewrite that does not fit leaves the file empty. */
  function Stored(fs: Fs, i: nat, data: seq<Byte>, room: bool): Fs
    requires i < |fs.files|
  {
    fs.(files := fs.files[i := if room then data else []])
  }

  /** What appending to a name would make of the file. */
  function AppendedData(fs: Fs, name: CString, data: seq<Byte>): seq<Byte>
    requires fs.cwd < |fs.dirs| == |fs.kinds| == |fs.files|
  {
    (if Names(fs, name, Regular) then fs.files[fs.dirs[fs.cwd][Lookup(fs, name)].inode] else []) + data
  }

  predicate CanAppendFile(fs: Fs, name: CString, data: seq<Byte>)
    requires fs.cwd < |fs.dirs| == |fs.kinds| == |fs.files|
  {
    && (Lookup(fs, name) >= 0 ==> Names(fs, name, Regular))
    && |AppendedData(fs, name, data)| <= SIMPLEFS_MAX_FILE_SIZE
  }

  lemma {:induction false} FilesDontShapeTrees(fs: Fs, i: nat, data: seq<Byte>)
    requires IsTree(fs) && i < SIMPLEFS_MAX_INODES && fs.kinds[i].Regular?
    ensures IsTree(fs.(files := fs.files[i := data]))
  {
    var home, depth :| Tree(fs, home, depth);
    var after := fs.(files := fs.files[i := data]);
    forall d | 0 <= d < SIMPLEFS_MAX_INODES && after.kinds[d].Directory? ensures DirOk(after, home, d) {
      assert DirOk(fs, home, d);
      forall k | 2 <= k < |fs.dirs[d]| ensures ChildOk(after, home, d, fs.dirs[d][k]) {
        assert ChildOk(fs, home, d, fs.dirs[d][k]);
      }
    }
    forall c | 0 < c < SIMPLEFS_MAX_INODES && !after.kinds[c].FreeInode? ensures NodeOk(after, home, depth, c) {
      assert NodeOk(fs, home, depth, c);
    }
    assert Tree(after, home, depth);
  }
}

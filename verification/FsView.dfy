/** The volume seen as a tree of directories and files. */
module FsView {
  import opened Machine
  import opened FsLayout
  import opened FsVolume
  import opened FsEntries
  import opened FsTree

  ghost predicate KindsOk(v: Volume) {
    forall i :: 0 <= i < |v.used| == |v.inodes| && v.used[i] ==> !v.inodes[i].kind.FreeInode?
  }

  ghost predicate VolumeOk(v: Volume) {
    Sound(v) && KindsOk(v)
  }

  ghost function KindOf(v: Volume, i: nat): InodeKind
    requires Sound(v) && i < SIMPLEFS_MAX_INODES
  {
    if v.used[i] then v.inodes[i].kind else FreeInode
  }

  ghost function EntriesOf(v: Volume, i: nat): seq<Entry>
    requires Sound(v) && i < SIMPLEFS_MAX_INODES
  {
    if KindOf(v, i).Directory? then DecodeEntries(Bytes(v, i)) else []
  }

  ghost function FileOf(v: Volume, i: nat): seq<Byte>
    requires Sound(v) && i < SIMPLEFS_MAX_INODES
  {
    if KindOf(v, i).Regular? then Bytes(v, i) else []
  }

  ghost function Abs(v: Volume, cwd: nat): (fs: Fs)
    requires VolumeOk(v) && cwd < SIMPLEFS_MAX_INODES
    ensures Shape(fs)
    ensures forall i :: 0 <= i < SIMPLEFS_MAX_INODES ==> Encodable(fs.dirs[i])
  {
    Fs(seq(SIMPLEFS_MAX_INODES, i requires 0 <= i < SIMPLEFS_MAX_INODES => KindOf(v, i)),
       seq(SIMPLEFS_MAX_INODES, i requires 0 <= i < SIMPLEFS_MAX_INODES => EntriesOf(v, i)),
       seq(SIMPLEFS_MAX_INODES, i requires 0 <= i < SIMPLEFS_MAX_INODES => FileOf(v, i)),
       cwd)
  }

  /** Rewriting a directory file with encoded entries rewrites that directory. */
  lemma {:induction false} DirectoryRewritten(v: Volume, w: Volume, cwd: nat, d: nat, entries: seq<Entry>)
    requires VolumeOk(v) && Sound(w) && cwd < SIMPLEFS_MAX_INODES && d < SIMPLEFS_MAX_INODES
    requires KindOf(v, d).Directory? && Encodable(entries)
    requires Rewritten(v, w, d, EncodeEntries(entries)) && SameKinds(v, w)
    ensures VolumeOk(w) && Abs(w, cwd) == Abs(v, cwd).(dirs := Abs(v, cwd).dirs[d := entries])
  {
    EntriesRoundTrip(entries);
    OthersLookSame(v, w, d);
    assert Abs(w, cwd).dirs == Abs(v, cwd).dirs[d := entries];
    assert Abs(w, cwd).kinds == Abs(v, cwd).kinds;
    assert Abs(w, cwd).files == Abs(v, cwd).files;
  }

  lemma {:induction false} FileRewritten(v: Volume, w: Volume, cwd: nat, f: nat, data: seq<Byte>)
    requires VolumeOk(v) && Sound(w) && cwd < SIMPLEFS_MAX_INODES && f < SIMPLEFS_MAX_INODES
    requires KindOf(v, f).Regular?
    requires Rewritten(v, w, f, data) && SameKinds(v, w)
    ensures VolumeOk(w) && Abs(w, cwd) == Abs(v, cwd).(files := Abs(v, cwd).files[f := data])
  {
    OthersLookSame(v, w, f);
    assert Abs(w, cwd).dirs == Abs(v, cwd).dirs;
    assert Abs(w, cwd).kinds == Abs(v, cwd).kinds;
    assert Abs(w, cwd).files == Abs(v, cwd).files[f := data];
  }

  /** A fresh inode of a kind, holding nothing. */
  lemma {:induction false} NodeAppeared(v: Volume, w: Volume, cwd: nat, i: nat)
    requires VolumeOk(v) && Sound(w) && cwd < SIMPLEFS_MAX_INODES && i < SIMPLEFS_MAX_INODES
    requires !v.used[i] && Rewritten(v, w, i, []) && !w.inodes[i].kind.FreeInode?
    requires w.inodes == v.inodes[i := w.inodes[i]]
    ensures VolumeOk(w) && Abs(w, cwd) == Abs(v, cwd).(kinds := Abs(v, cwd).kinds[i := w.inodes[i].kind])
  {
    OthersLookSame(v, w, i);
    assert DecodeEntries([]) == [];
    assert Abs(w, cwd).dirs == Abs(v, cwd).dirs;
    assert Abs(w, cwd).kinds == Abs(v, cwd).kinds[i := w.inodes[i].kind];
    assert Abs(w, cwd).files == Abs(v, cwd).files;
  }

  /** An inode leaves, with whatever it held. */
  lemma {:induction false} NodeLeft(v: Volume, w: Volume, cwd: nat, i: nat)
    requires VolumeOk(v) && Sound(w) && cwd < SIMPLEFS_MAX_INODES && i < SIMPLEFS_MAX_INODES
    requires Removed(v, w, i) && w.inodes == v.inodes[i := w.inodes[i]]
    ensures VolumeOk(w)
    ensures Abs(w, cwd) == Fs(Abs(v, cwd).kinds[i := FreeInode], Abs(v, cwd).dirs[i := []], Abs(v, cwd).files[i := []], cwd)
  {
    OthersLookSame(v, w, i);
    assert Abs(w, cwd).dirs == Abs(v, cwd).dirs[i := []];
    assert Abs(w, cwd).kinds == Abs(v, cwd).kinds[i := FreeInode];
    assert Abs(w, cwd).files == Abs(v, cwd).files[i := []];
  }

  ghost predicate SameKinds(v: Volume, w: Volume) {
    w.used == v.used && |w.inodes| == |v.inodes| && forall i :: 0 <= i < |v.inodes| ==> w.inodes[i].kind == v.inodes[i].kind
  }

  lemma {:induction false} OthersLookSame(v: Volume, w: Volume, i: nat)
    requires VolumeOk(v) && Sound(w) && OthersSame(v, w, i)
    requires forall j :: 0 <= j < SIMPLEFS_MAX_INODES && j != i ==> w.inodes[j].kind == v.inodes[j].kind
    ensures forall j :: 0 <= j < SIMPLEFS_MAX_INODES && j != i ==>
              KindOf(w, j) == KindOf(v, j) && EntriesOf(w, j) == EntriesOf(v, j) && FileOf(w, j) == FileOf(v, j)
  {
  }

  lemma {:induction false} LinkCountsDontShow(v: Volume, w: Volume, cwd: nat)
    requires VolumeOk(v) && Sound(w) && cwd < SIMPLEFS_MAX_INODES && SameKinds(v, w)
    requires forall j :: 0 <= j < SIMPLEFS_MAX_INODES && v.used[j] ==> Bytes(w, j) == Bytes(v, j)
    ensures VolumeOk(w) && Abs(w, cwd) == Abs(v, cwd)
  {
    assert Abs(w, cwd).dirs == Abs(v, cwd).dirs;
    assert Abs(w, cwd).kinds == Abs(v, cwd).kinds;
    assert Abs(w, cwd).files == Abs(v, cwd).files;
  }

  lemma {:induction false} FreeKinds(v: Volume, cwd: nat)
    requires VolumeOk(v) && cwd < SIMPLEFS_MAX_INODES
    ensures forall i :: 0 <= i < SIMPLEFS_MAX_INODES ==> (Abs(v, cwd).kinds[i].FreeInode? <==> !v.used[i])
  {
  }

  /** Inode `i` has been allocated; no block has moved. */
  ghost predicate Appeared(v: Volume, w: Volume, i: nat)
    requires Sound(v) && Sound(w)
  {
    && i < SIMPLEFS_MAX_INODES && !v.used[i] && Rewritten(v, w, i, [])
    && w.bitmap == v.bitmap && OwnedCount(w, i) == 0
    && (Tight(v) ==> Tight(w))
  }
}

/** Directory files: 32-byte entries, each an inode number and a 28-byte name field. */
module FsEntries {
  import opened Machine
  import opened FsLayout

  const ENTRY_SIZE := 32
  const NAME_SIZE := 28
  const SIMPLEFS_MAX_DIRECTORY_ENTRIES := SIMPLEFS_MAX_FILE_SIZE / ENTRY_SIZE

  const SIMPLEFS_INVALID_INODE: U32 := 0xFFFF_FFFF

  type CString = s: seq<Byte> | forall k :: 0 <= k < |s| ==> s[k] != 0

  const DOT: CString := [46]
  const DOT_DOT: CString := [46, 46]
  const SLASH: CString := [47]

  predicate IsSpecial(name: CString) {
    name == DOT || name == DOT_DOT
  }

  predicate ValidName(name: CString) {
    0 < |name| < NAME_SIZE && !IsSpecial(name) && name != SLASH
  }

  datatype Entry = Entry(inode: U32, name: CString)

  /** The bytes before the first NUL. */
  function UpToNul(b: seq<Byte>): (name: CString)
    ensures |name| <= |b|
  {
    if b == [] || b[0] == 0 then [] else [b[0]] + UpToNul(b[1..])
  }

  function EncodeEntry(e: Entry): (b: seq<Byte>)
    requires |e.name| <= NAME_SIZE
    ensures |b| == ENTRY_SIZE
  {
    EncodeWord(e.inode) + (e.name + Zeros(NAME_SIZE - |e.name|))
  }

  function DecodeEntry(b: seq<Byte>): (e: Entry)
    requires |b| == ENTRY_SIZE
    ensures |e.name| <= NAME_SIZE
  {
    Entry(DecodeWord(b[..4]), UpToNul(b[4..]))
  }

  predicate Encodable(entries: seq<Entry>) {
    forall k :: 0 <= k < |entries| ==> |entries[k].name| <= NAME_SIZE
  }

  function EncodeEntries(entries: seq<Entry>): (b: seq<Byte>)
    requires Encodable(entries)
    ensures |b| == ENTRY_SIZE * |entries|
  {
    if entries == [] then [] else EncodeEntry(entries[0]) + EncodeEntries(entries[1..])
  }

  function DecodeEntries(b: seq<Byte>): (entries: seq<Entry>)
    ensures Encodable(entries) && |entries| == |b| / ENTRY_SIZE
  {
    if |b| < ENTRY_SIZE then [] else [DecodeEntry(b[..ENTRY_SIZE])] + DecodeEntries(b[ENTRY_SIZE..])
  }

  lemma {:induction false} NameRoundTrip(name: CString, n: nat)
    ensures UpToNul(name + Zeros(n)) == name
  {
    if name != [] {
      assert (name + Zeros(n))[1..] == name[1..] + Zeros(n);
      NameRoundTrip(name[1..], n);
    }
  }

  /** What is written to a directory file is what is read from it. */
  lemma {:induction false} EntriesRoundTrip(entries: seq<Entry>)
    requires Encodable(entries)
    ensures DecodeEntries(EncodeEntries(entries)) == entries
  {
    if entries != [] {
      var b, e := EncodeEntries(entries), entries[0];
      assert b[..ENTRY_SIZE] == EncodeEntry(e) && b[ENTRY_SIZE..] == EncodeEntries(entries[1..]);
      assert EncodeEntry(e)[..4] == EncodeWord(e.inode);
      assert EncodeEntry(e)[4..] == e.name + Zeros(NAME_SIZE - |e.name|);
      WordRoundTrip(e.inode);
      NameRoundTrip(e.name, NAME_SIZE - |e.name|);
      EntriesRoundTrip(entries[1..]);
    }
  }

  /** Entry `k` takes 32 bytes: its inode, lowest byte first, then its name, padded with zeros. */
  lemma {:induction false} EntryOnDisk(entries: seq<Entry>, k: nat)
    requires Encodable(entries) && k < |entries|
    ensures var b, e := EncodeEntries(entries)[32 * k..32 * k + 32], entries[k];
            && e.inode == (b[0] as int) + 0x100 * (b[1] as int) + 0x1_0000 * (b[2] as int) + 0x100_0000 * (b[3] as int)
            && b[4..4 + |e.name|] == e.name && forall j :: 4 + |e.name| <= j < 32 ==> b[j] == 0
  {
    var b := EncodeEntries(entries);
    if k > 0 {
      EntryOnDisk(entries[1..], k - 1);
      assert EncodeEntries(entries[1..])[32 * (k - 1)..32 * (k - 1) + 32] == b[32 * k..32 * k + 32];
    } else {
      var word, name := EncodeWord(entries[0].inode), entries[0].name + Zeros(NAME_SIZE - |entries[0].name|);
      WordRoundTrip(entries[0].inode);
      assert b[..32] == word + name;
      assert forall j :: 0 <= j < 4 ==> b[..32][j] == word[j];
    }
  }

  function Find(entries: seq<Entry>, name: CString, from: nat): (slot: int)
    requires from <= |entries|
    ensures -1 <= slot < |entries|
    ensures slot >= 0 ==> from <= slot && Matches(entries[slot], name)
    ensures forall j :: from <= j < (if slot < 0 then |entries| else slot) ==> !Matches(entries[j], name)
    decreases |entries| - from
  {
    if from == |entries| then -1
    else if Matches(entries[from], name) then from
    else Find(entries, name, from + 1)
  }

  predicate Matches(e: Entry, name: CString) {
    e.inode != SIMPLEFS_INVALID_INODE && e.name == name
  }

  function WithoutSlot(entries: seq<Entry>, slot: nat): seq<Entry>
    requires slot < |entries|
  {
    entries[..slot] + entries[slot + 1..]
  }
}

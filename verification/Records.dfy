/** What the files of the talker have in common: typed entries under a section, and reading back
    an entry that the file holds.
 */
module Records {
  import opened Options
  import opened CStrings
  import opened Paths
  import opened Disk

  const INT := "si"
  const UINT := "ui"
  const SHORT := "sh"

  const SHRT_MIN := -0x8000
  const SHRT_MAX := 0x7FFF
  const INT_MIN := -0x8000_0000
  const UINT_MAX := 0xFFFF_FFFF

  function StringEntry(section: Path, tag: string, str: string): Entry {
    Entry(section + [tag], STRING, str)
  }

  function NumberEntry(section: Path, tag: string, kind: string, n: int): Entry {
    Entry(section + [tag], kind, Signed(n))
  }

  function BitEntry(section: Path, tag: string, bit: bool): Entry {
    Entry(section + [tag], BITFLAG, if bit then "1" else "0")
  }

  /** The file holds these entries, one behind the other, from index i on. */
  predicate Block(entries: seq<Entry>, i: nat, part: seq<Entry>) {
    i + |part| <= |entries| && entries[i..i + |part|] == part
  }

  lemma BlockAt(entries: seq<Entry>, i: nat, part: seq<Entry>, k: nat)
    requires Block(entries, i, part) && k < |part|
    ensures i + k < |entries| && entries[i + k] == part[k]
  {
    assert entries[i + k] == entries[i..i + |part|][k];
  }

  lemma BlockPart(entries: seq<Entry>, i: nat, a: seq<Entry>, b: seq<Entry>)
    requires Block(entries, i, a + b)
    ensures Block(entries, i, a) && Block(entries, i + |a|, b)
  {
    assert entries[i..i + |a|] == entries[i..i + |a + b|][..|a|] == a;
    assert entries[i + |a|..i + |a| + |b|] == entries[i..i + |a + b|][|a|..] == b;
  }

  lemma WholeBlock(a: seq<Entry>, b: seq<Entry>)
    ensures Block(a + b, |a|, b)
  {
  }

  lemma ConcatBlock(base: seq<Entry>, a: seq<Entry>, b: seq<Entry>)
    ensures base + a + b == base + (a + b)
  {
  }

  function Flat(blocks: seq<seq<Entry>>): seq<Entry> {
    if blocks == [] then [] else Flat(blocks[..|blocks| - 1]) + blocks[|blocks| - 1]
  }

  /** One block more. */
  lemma FlatSnoc(base: seq<Entry>, was: seq<seq<Entry>>, now: seq<seq<Entry>>, block: seq<Entry>)
    requires now == was + [block]
    ensures base + Flat(was) + block == base + Flat(now)
  {
    assert now[..|was|] == was;
    ConcatBlock(base, Flat(was), block);
  }

  /** Where each of the blocks starts that the file holds one behind the other. */
  lemma {:induction false} FlatStarts(entries: seq<Entry>, i: nat, blocks: seq<seq<Entry>>) returns (starts: seq<nat>)
    requires Block(entries, i, Flat(blocks))
    ensures |starts| == |blocks|
    ensures forall k {:trigger starts[k]} :: 0 <= k < |blocks| ==> Block(entries, starts[k], blocks[k])
    decreases |blocks|
  {
    if blocks == [] {
      starts := [];
    } else {
      var front, last := blocks[..|blocks| - 1], blocks[|blocks| - 1];
      BlockPart(entries, i, Flat(front), last);
      starts := FlatStarts(entries, i, front);
      starts := starts + [i + |Flat(front)|];
    }
  }

  /** Nothing that comes later than all entries is in the file. */
  lemma BeyondIsAbsent(entries: File, path: Path, kind: string)
    requires AllBelow(entries, |entries|, path)
    ensures Matches(entries, path, kind) && Lookup(entries, path) == None
  {
    Missed(entries, |entries|, path);
    forall j | 0 <= j < |entries|
      ensures Compatible(entries[j].path, path) && entries[j].path != path
    {
      PathLtAsymmetric(entries[j].path, path);
    }
  }

  /** `%04d` and `%05d` give names, as long as the number has no more digits. */
  lemma NameIsTag(n: nat, w: nat)
    requires 1 <= w < TAG_MAX_SIZE && n < Pow10(w)
    ensures ValidTag(Pad(n, w))
  {
    PadWidth(n, w);
    forall i | 0 <= i < |Pad(n, w)|
      ensures IsDigit(Pad(n, w)[i])
    {
      PadDigits(n, w, i);
    }
  }

  /** The name of the last of so many numbered sections. */
  function LastName(count: nat, w: nat): string {
    if count == 0 then "" else Pad(count, w)
  }

  lemma NextName(count: nat, w: nat)
    requires 1 <= w < TAG_MAX_SIZE && count + 1 < Pow10(w)
    ensures ValidTag(Pad(count + 1, w)) && StrLt(LastName(count, w), Pad(count + 1, w))
  {
    NameIsTag(count + 1, w);
    if count > 0 {
      PadIncreasing(count, count + 1, w);
    }
  }

  lemma {:induction false} DecShort(n: nat, w: nat)
    requires n < Pow10(w) && w >= 1
    ensures |Dec(n)| <= w
    decreases w
  {
    if w > 1 && n >= 10 {
      DecShort(n / 10, w - 1);
    }
  }

  const NUMBER_MAX := 10_000_000_000

  /** Numbers of the machine's types take few bytes. */
  lemma SignedShort(n: int)
    requires -NUMBER_MAX < n < NUMBER_MAX
    ensures |Signed(n)| <= 11
  {
    assert Pow10(4) == 10_000 && Pow10(7) == 1000 * Pow10(4) && Pow10(10) == 1000 * Pow10(7);
    DecShort(if n < 0 then -n else n, 10);
  }

  lemma SignedInjective(m: int, n: int)
    requires Signed(m) == Signed(n)
    ensures m == n
  {
    PadDigits(if m < 0 then -m else m, 0, 0);
    PadDigits(if n < 0 then -n else n, 0, 0);
    if m < 0 && n < 0 {
      assert Signed(m)[1..] == Dec(-m) && Signed(n)[1..] == Dec(-n);
      PadInjective(-m, -n, 0);
    } else if m >= 0 && n >= 0 {
      PadInjective(m, n, 0);
    }
  }

  // ---------------------------------------------------------------- names that can be read

  lemma ReadableBoth(a: seq<Entry>, b: seq<Entry>)
    requires Readable(a) && Readable(b)
    ensures Readable(a + b)
  {
  }

  lemma ShortSnoc(section: Path, tag: string)
    requires ShortNames(section) && |tag| + |OBJECT| < TAG_MAX_SIZE
    ensures ShortNames(section + [tag])
  {
  }

  lemma ReadableOne(section: Path, tag: string, kind: string, data: string)
    requires ShortNames(section) && |tag| + |OBJECT| < TAG_MAX_SIZE
    ensures Readable([Entry(section + [tag], kind, data)])
  {
    ShortSnoc(section, tag);
  }

  /** Numbers of sections are short names. */
  lemma ShortNumber(section: Path, n: nat, w: nat)
    requires ShortNames(section) && 1 <= w < TAG_MAX_SIZE - |OBJECT| && n < Pow10(w)
    ensures ShortNames(section + [Pad(n, w)])
  {
    PadWidth(n, w);
    ShortSnoc(section, Pad(n, w));
  }

  lemma {:induction false} ReadableFlat(blocks: seq<seq<Entry>>)
    requires forall k :: 0 <= k < |blocks| ==> Readable(blocks[k])
    ensures Readable(Flat(blocks))
    decreases |blocks|
  {
    if blocks != [] {
      ReadableFlat(blocks[..|blocks| - 1]);
      ReadableBoth(Flat(blocks[..|blocks| - 1]), blocks[|blocks| - 1]);
    }
  }

  // ---------------------------------------------------------------- writing and reading entries

  ghost predicate Saving(fs: FileIo)
    reads fs
  {
    fs.Ordered() && fs.Writing()
  }

  ghost predicate Loading(fs: FileIo)
    reads fs
  {
    fs.Ordered() && fs.Reading() && Readable(fs.entries)
  }

  method PutNumber(fs: FileIo, tag: string, kind: string, n: int)
    requires Saving(fs) && ValidTag(tag) && ValidKind(kind) && StrLt(fs.Top(), tag)
    requires -NUMBER_MAX < n < NUMBER_MAX
    modifies fs`stream, fs`prev, fs`entries, fs`pos
    ensures Saving(fs) && fs.Top() == tag
    ensures fs.entries == old(fs.entries) + [NumberEntry(fs.prefix, tag, kind, n)]
  {
    SignedShort(n);
    fs.FilePutNumber(tag, kind, n);
  }

  method PutBit(fs: FileIo, tag: string, bit: bool)
    requires Saving(fs) && ValidTag(tag) && StrLt(fs.Top(), tag)
    modifies fs`stream, fs`prev, fs`entries, fs`pos
    ensures Saving(fs) && fs.Top() == tag
    ensures fs.entries == old(fs.entries) + [BitEntry(fs.prefix, tag, bit)]
  {
    fs.FilePutBitflag(tag, bit);
  }

  method PutString(fs: FileIo, tag: string, str: string)
    requires Saving(fs) && ValidTag(tag) && StrLt(fs.Top(), tag) && |str| <= INT_MAX
    modifies fs`stream, fs`prev, fs`entries, fs`pos
    ensures Saving(fs) && fs.Top() == tag
    ensures fs.entries == old(fs.entries) + [StringEntry(fs.prefix, tag, str)]
  {
    fs.FilePutString(tag, str);
  }

  method GetNumber(fs: FileIo, tag: string, kind: string, lo: int, hi: int, ghost n: int, ghost i: nat)
    returns (r: int)
    requires Loading(fs) && ValidTag(tag) && StrLt(fs.Top(), tag)
    requires lo <= n <= hi && i < |fs.entries| && fs.entries[i] == NumberEntry(fs.prefix, tag, kind, n)
    modifies fs`prev, fs`foundOnDisk, fs`stream, fs`eof, fs`pos, fs`diskTag, fs`diskType, fs`diskUsed
    ensures Loading(fs) && fs.Top() == tag && r == n
  {
    EntryIsStored(fs.entries, i);
    ReadableIsLegible(fs.entries, fs.prefix + [tag]);
    r := fs.FileGetNumber(tag, kind, lo, hi);
    SignedInjective(r, n);
  }

  method GetBit(fs: FileIo, tag: string, ghost bit: bool, ghost i: nat) returns (r: bool)
    requires Loading(fs) && ValidTag(tag) && StrLt(fs.Top(), tag)
    requires i < |fs.entries| && fs.entries[i] == BitEntry(fs.prefix, tag, bit)
    modifies fs`prev, fs`foundOnDisk, fs`stream, fs`eof, fs`pos, fs`diskTag, fs`diskType, fs`diskUsed
    ensures Loading(fs) && fs.Top() == tag && r == bit
  {
    EntryIsStored(fs.entries, i);
    ReadableIsLegible(fs.entries, fs.prefix + [tag]);
    r := fs.FileGetBitflag(tag);
  }

  method GetString(fs: FileIo, tag: string, size: nat, ghost str: string, ghost i: nat) returns (r: string)
    requires Loading(fs) && ValidTag(tag) && StrLt(fs.Top(), tag) && |str| < size
    requires i < |fs.entries| && fs.entries[i] == StringEntry(fs.prefix, tag, str)
    modifies fs`prev, fs`foundOnDisk, fs`stream, fs`eof, fs`pos, fs`diskTag, fs`diskType, fs`diskUsed
    ensures Loading(fs) && fs.Top() == tag && r == str
  {
    EntryIsStored(fs.entries, i);
    ReadableIsLegible(fs.entries, fs.prefix + [tag]);
    r := fs.FileGetString(tag, size);
  }

  method GetMalloc(fs: FileIo, tag: string, ghost str: string, ghost i: nat) returns (r: string)
    requires Loading(fs) && ValidTag(tag) && StrLt(fs.Top(), tag)
    requires i < |fs.entries| && fs.entries[i] == StringEntry(fs.prefix, tag, str)
    modifies fs`prev, fs`foundOnDisk, fs`stream, fs`eof, fs`pos, fs`diskTag, fs`diskType, fs`diskUsed
    ensures Loading(fs) && fs.Top() == tag && r == str
  {
    EntryIsStored(fs.entries, i);
    ReadableIsLegible(fs.entries, fs.prefix + [tag]);
    r := fs.FileGetMalloc(tag);
  }

  // ---------------------------------------------------------------- whole files

  /** The first entry of every file. */
  function VersionEntry(fileVersion: int): Entry {
    NumberEntry([], VERSION_TAG, INT, fileVersion)
  }

  lemma VersionReadable(fileVersion: int, entries: seq<Entry>)
    requires Readable(entries)
    ensures Readable([VersionEntry(fileVersion)] + entries)
  {
    ReadableOne([], VERSION_TAG, INT, Signed(fileVersion));
    ReadableBoth([VersionEntry(fileVersion)], entries);
  }

  /** `file_write_open` */
  method WriteOpen(fileVersion: int) returns (fs: FileIo)
    requires INT_MIN <= fileVersion <= INT_MAX
    ensures fresh(fs) && Saving(fs) && fs.prefix == [] && fs.Top() == VERSION_TAG
    ensures fs.entries == [VersionEntry(fileVersion)]
  {
    fs := new FileIo.ForWriting();
    PutNumber(fs, VERSION_TAG, INT, fileVersion);
  }

  /** `file_read_open` of a file that `file_write_open` began. */
  method ReadOpen(bytes: string, ghost content: File, ghost fileVersion: int) returns (fs: FileIo)
    requires bytes == Bytes(content) && INT_MIN <= fileVersion <= INT_MAX
    requires content != [] && content[0] == VersionEntry(fileVersion) && Readable(content)
    ensures fresh(fs) && Loading(fs) && fs.prefix == [] && fs.Top() == VERSION_TAG
    ensures fs.entries == content && fs.version == fileVersion
  {
    fs := new FileIo.ForReading(bytes, content);
    var version := GetNumber(fs, VERSION_TAG, INT, INT_MIN, INT_MAX, fileVersion, 0);
    fs.version := version;
  }
}

/** The tagged file store: a tree of named sections flattened into lines
    `section ob . section ob . tag type : length : data newline`, written in strictly
    increasing order and read back by one pass that remembers at most one tag path.
 */
module Disk {
  import opened Options
  import opened CStrings
  import opened Paths

  const MAX_PREFIX_TAGS := 8
  const TAG_MAX_SIZE := 32
  const INT_MAX := 0x7FFF_FFFF

  const OBJECT := "ob"
  const STRING := "ss"
  const BITFLAG := "bf"
  const VERSION_TAG := "\U{01}version"

  datatype Entry = Entry(path: Path, kind: string, data: string)

  /** No separator occurs in the text. */
  predicate TagText(t: string) {
    forall i :: 0 <= i < |t| ==> t[i] != '.' && t[i] != ':'
  }

  predicate ValidTag(t: string) { 0 < |t| < TAG_MAX_SIZE && TagText(t) }

  predicate ValidPath(p: Path) {
    p == [] || (ValidTag(p[0]) && ValidPath(p[1..]))
  }

  /** What the reader asserts of each name it reads, whose two type characters it counts too:
      names of 30 and 31 characters can be written but not read. */
  predicate ShortNames(p: Path) {
    forall i :: 0 <= i < |p| ==> |p[i]| + |OBJECT| < TAG_MAX_SIZE
  }

  /** The names that the reader reads of the tag path of an entry: all of them, unless the entry
      comes before the requested path; then those up to the first that differs. */
  predicate Reads(p: Path, want: Path, i: nat)
    requires i < |p|
  {
    PathLt(p, want) ==> i <= |want| && p[..i] == want[..i]
  }

  /** None of the names that are read is too long. */
  predicate Passes(p: Path, want: Path) {
    forall i :: 0 <= i < |p| && Reads(p, want, i) ==> |p[i]| + |OBJECT| < TAG_MAX_SIZE
  }

  predicate ValidKind(k: string) { |k| == 2 && TagText(k) }

  ghost predicate ValidEntry(e: Entry) {
    && 0 < |e.path| <= MAX_PREFIX_TAGS + 1
    && ValidPath(e.path)
    && ValidKind(e.kind)
    && |e.data| <= INT_MAX
  }

  // ---------------------------------------------------------------- the file format

  /** `put_entry_tag` prints this. */
  function TagBytes(path: Path, kind: string): string {
    if path == [] then kind + ":"
    else if |path| == 1 then path[0] + kind + ":"
    else path[0] + OBJECT + "." + TagBytes(path[1..], kind)
  }

  /** `finnish_put_entry` prints this. */
  function DataBytes(data: string): string {
    Dec(|data|) + ":" + data + "\n"
  }

  function Bytes(entries: seq<Entry>): string {
    if entries == [] then ""
    else TagBytes(entries[0].path, entries[0].kind) + DataBytes(entries[0].data) + Bytes(entries[1..])
  }

  /** A number in a section, as it stands in a file. */
  lemma EntryInBytes()
    ensures Bytes([Entry(["list", "size"], "ui", Dec(12))]) == "listob.sizeui:2:12\n"
  {
    var e := Entry(["list", "size"], "ui", Dec(12));
    assert e.path[1..] == ["size"] && [e][1..] == [];
    assert Pad(1, 0) == "1" && e.data == "12" && Dec(2) == "2";
    assert TagBytes(e.path, "ui") == "listob.sizeui:";
  }

  lemma {:induction false} BytesSnoc(entries: seq<Entry>, e: Entry)
    ensures Bytes(entries + [e]) == Bytes(entries) + TagBytes(e.path, e.kind) + DataBytes(e.data)
  {
    if entries == [] {
      assert [e][1..] == [];
    } else {
      assert (entries + [e])[1..] == entries[1..] + [e];
      BytesSnoc(entries[1..], e);
      var head := TagBytes(entries[0].path, entries[0].kind) + DataBytes(entries[0].data);
      Associate(head, Bytes(entries[1..]), TagBytes(e.path, e.kind), DataBytes(e.data));
    }
  }

  lemma Associate(a: string, b: string, c: string, d: string)
    ensures a + (b + c + d) == a + b + c + d
  {
  }

  lemma TagTextAppend(s: string, t: string)
    requires TagText(s) && TagText(t)
    ensures TagText(s + t)
  {
  }

  lemma {:induction false} ValidPathSuffix(p: Path, k: nat)
    requires ValidPath(p) && k <= |p|
    ensures ValidPath(p[k..])
  {
    if k == 0 {
      assert p[0..] == p;
    } else {
      ValidPathSuffix(p[1..], k - 1);
      assert p[k..] == p[1..][k - 1..];
    }
  }

  lemma {:induction false} ValidPathSnoc(p: Path, t: string)
    requires ValidPath(p) && ValidTag(t)
    ensures ValidPath(p + [t])
  {
    if p != [] {
      ValidPathSnoc(p[1..], t);
      assert (p + [t])[1..] == p[1..] + [t];
    }
  }

  lemma {:induction false} ValidPathPrefix(p: Path, k: nat)
    requires ValidPath(p) && k <= |p|
    ensures ValidPath(p[..k])
  {
    if k > 0 {
      ValidPathPrefix(p[1..], k - 1);
      assert p[..k][1..] == p[1..][..k - 1];
    }
  }

  lemma ComponentBytes(path: Path, kind: string, tail: string, w: string, sep: char, after: string)
    requires path != [] && w == path[0] + (if |path| == 1 then kind else OBJECT)
    requires sep == (if |path| == 1 then ':' else '.')
    requires after == if |path| == 1 then tail else TagBytes(path[1..], kind) + tail
    ensures TagBytes(path, kind) + tail == w + [sep] + after
  {
  }

  /** The only ':' of a tag path is its last byte. */
  lemma {:induction false} TagBytesEnd(path: Path, kind: string) returns (w: string)
    requires ValidPath(path) && TagText(kind)
    ensures TagBytes(path, kind) == w + ":"
    ensures forall i :: 0 <= i < |w| ==> w[i] != ':'
  {
    if |path| <= 1 {
      var name := if path == [] then "" else path[0];
      w := name + kind;
      TagTextAppend(name, kind);
    } else {
      var v := TagBytesEnd(path[1..], kind);
      w := path[0] + OBJECT + "." + v;
      assert TagBytes(path, kind) == path[0] + OBJECT + "." + (v + ":");
    }
  }

  // ---------------------------------------------------------------- the tree as a map

  ghost predicate Sorted(entries: seq<Entry>) {
    |entries| <= 1 || (PathLt(entries[0].path, entries[1].path) && Sorted(entries[1..]))
  }

  lemma {:induction false} SortedAt(entries: seq<Entry>, i: nat, j: nat)
    requires Sorted(entries) && i < j < |entries|
    ensures PathLt(entries[i].path, entries[j].path)
  {
    if i > 0 {
      SortedAt(entries[1..], i - 1, j - 1);
    } else if j > 1 {
      SortedAt(entries[1..], 0, j - 1);
      PathLtTransitive(entries[0].path, entries[1].path, entries[j].path);
    }
  }

  lemma {:induction false} SortedSnoc(entries: seq<Entry>, e: Entry)
    requires Sorted(entries) && (entries != [] ==> PathLt(entries[|entries| - 1].path, e.path))
    ensures Sorted(entries + [e])
  {
    if entries != [] {
      SortedSnoc(entries[1..], e);
      assert (entries + [e])[1..] == entries[1..] + [e];
    }
  }

  /** Plain map lookup: the reference the one-pass reader is compared with. */
  function Lookup(entries: seq<Entry>, path: Path): Option<string> {
    if entries == [] then None
    else if entries[0].path == path then Some(entries[0].data)
    else Lookup(entries[1..], path)
  }

  lemma {:induction false} LookupMiss(entries: seq<Entry>, path: Path)
    requires forall e :: e in entries ==> e.path != path
    ensures Lookup(entries, path) == None
  {
    if entries != [] {
      LookupMiss(entries[1..], path);
    }
  }

  ghost predicate ValidFile(entries: seq<Entry>) {
    && (forall i :: 0 <= i < |entries| ==> ValidEntry(entries[i]))
    && Sorted(entries)
  }

  /** The entries of a file that a sequence of section and put operations can write. */
  type File = entries: seq<Entry> | ValidFile(entries) ghost witness []

  /** In a sorted file a path names one entry. */
  lemma {:induction false} LookupHit(entries: seq<Entry>, i: nat)
    requires Sorted(entries) && i < |entries|
    ensures Lookup(entries, entries[i].path) == Some(entries[i].data)
  {
    if i > 0 {
      SortedAt(entries, 0, i);
      PathLtAsymmetric(entries[0].path, entries[i].path);
      LookupHit(entries[1..], i - 1);
    }
  }

  /** The first n entries are `Done` with respect to a floor. */
  ghost predicate AllDone(entries: seq<Entry>, n: nat, floor: Path)
    requires n <= |entries|
  {
    forall i :: 0 <= i < n ==> Done(entries[i].path, floor)
  }

  /** The first n entries come strictly before a path. */
  ghost predicate AllBelow(entries: seq<Entry>, n: nat, path: Path)
    requires n <= |entries|
  {
    forall i :: 0 <= i < n ==> PathLt(entries[i].path, path)
  }

  /** No name of the path is both a tag and a section, and its type is the one it was
      written with. */
  ghost predicate Matches(entries: seq<Entry>, path: Path, kind: string) {
    forall i :: 0 <= i < |entries| ==>
      Compatible(entries[i].path, path) && (entries[i].path == path ==> entries[i].kind == kind)
  }

  /** No name in the file is too long for the reader. */
  ghost predicate Readable(entries: seq<Entry>) {
    forall i :: 0 <= i < |entries| ==> ShortNames(entries[i].path)
  }

  /** A request does not meet a name that is too long: it comes to all entries in front of the
      requested path, and to one behind them. */
  ghost predicate Legible(entries: seq<Entry>, want: Path) {
    forall i {:trigger entries[i]} :: 0 <= i < |entries| && AllBelow(entries, i, want) ==> Passes(entries[i].path, want)
  }

  lemma ReadableIsLegible(entries: seq<Entry>, want: Path)
    requires Readable(entries)
    ensures Legible(entries, want)
  {
  }

  /** An entry of the file can be asked for, and is what lookup finds. */
  lemma EntryIsStored(entries: File, i: nat)
    requires i < |entries|
    ensures Matches(entries, entries[i].path, entries[i].kind)
    ensures Lookup(entries, entries[i].path) == Some(entries[i].data)
  {
    LookupHit(entries, i);
    forall j | 0 <= j < |entries|
      ensures Compatible(entries[j].path, entries[i].path)
      ensures entries[j].path == entries[i].path ==> entries[j].kind == entries[i].kind
    {
      if j < i {
        SortedAt(entries, j, i);
        PathLtAsymmetric(entries[j].path, entries[i].path);
      } else if i < j {
        SortedAt(entries, i, j);
        PathLtAsymmetric(entries[i].path, entries[j].path);
      }
    }
  }

  lemma EnterSection(entries: File, n: nat, section: Path, top: string, name: string)
    requires n <= |entries| && AllDone(entries, n, section + [top]) && StrLt(top, name)
    ensures AllBelow(entries, n, section + [name])
    ensures AllDone(entries, n, section + [name] + [""])
  {
    forall i | 0 <= i < n
      ensures PathLt(entries[i].path, section + [name])
      ensures Done(entries[i].path, section + [name] + [""])
    {
      DoneBelow(entries[i].path, section, top, name);
      ExtendFloor(entries[i].path, section + [name], [""]);
    }
  }

  lemma BelowIsDone(entries: File, n: nat, path: Path)
    requires n <= |entries| && AllBelow(entries, n, path)
    ensures AllDone(entries, n, path)
  {
  }

  lemma FoundIsDone(entries: File, n: nat, path: Path)
    requires n < |entries| && AllDone(entries, n, path) && entries[n].path == path
    ensures AllDone(entries, n + 1, path)
  {
  }

  /** What `file_get_string` leaves of a string in a buffer of `size` bytes. */
  function Truncated(s: string, size: nat): (r: string)
    requires size > 0
    ensures r <= s && |r| == if |s| < size then |s| else size - 1
  {
    if |s| >= size then s[..size - 1] else s
  }

  function SignedValue(s: string, minus: bool): int {
    if minus then -Value(s) else Value(s)
  }

  ghost predicate SpellsNumber(s: string, lo: int, hi: int) {
    exists n :: lo <= n <= hi && s == Signed(n)
  }

  lemma LeaveSection(entries: File, n: nat, section: Path, name: string, top: string)
    requires n <= |entries| && AllDone(entries, n, section + [name] + [top])
    ensures AllDone(entries, n, section + [name])
  {
    forall i | 0 <= i < n
      ensures Done(entries[i].path, section + [name])
    {
      DoneOutside(entries[i].path, section, name, top);
    }
  }

  /** Once the next entry lies beyond a path, the file does not hold that path. */
  lemma Missed(entries: File, pos: nat, path: Path)
    requires pos <= |entries| && AllBelow(entries, pos, path)
    requires pos < |entries| ==> PathLt(path, entries[pos].path)
    ensures Lookup(entries, path) == None
  {
    forall i | 0 <= i < |entries|
      ensures entries[i].path != path
    {
      if i < pos {
        PathLtAsymmetric(entries[i].path, path);
      } else {
        if pos < i {
          SortedAt(entries, pos, i);
          PathLtTransitive(path, entries[pos].path, entries[i].path);
        }
        PathLtAsymmetric(path, entries[i].path);
      }
    }
    LookupMiss(entries, path);
  }

  lemma DataAppended(s: string, data: string, length: string)
    requires length == Dec(|data|)
    ensures s + length + ":" + data + "\n" == s + DataBytes(data)
  {
  }

  lemma FirstOf(text: string, i: nat, tail: string)
    requires i < |text|
    ensures (text[i..] + tail)[0] == text[i] && (text[i..] + tail)[1..] == text[i + 1..] + tail
  {
  }

  /** A path that agrees with a compatible one up to its end is that path. */
  lemma WholePath(p: Path, q: Path, k: nat)
    requires Compatible(p, q) && |p| == k + 1 <= |q| && p[..k + 1] == q[..k + 1]
    ensures p == q
  {
    assert p == q[..k + 1];
  }

  /** Two compatible paths that agree so far either both go on or are the same. */
  lemma CompatibleGoesOn(p: Path, q: Path, k: nat)
    requires Compatible(p, q) && k < |p| && k <= |q| && p[..k] == q[..k]
    ensures k < |q|
    ensures p[k] == q[k] && |p| == k + 1 ==> p == q
  {
    assert k == |q| ==> q < p;
    if k < |q| && p[k] == q[k] && |p| == k + 1 {
      assert p == p[..k] + [p[k]] == q[..k + 1];
    }
  }

  lemma TooLong(p: Path, want: Path, k: nat, decided: bool)
    requires k < |p| && |p[k]| + |OBJECT| >= TAG_MAX_SIZE
    requires if decided then PathLt(want, p) else k <= |want| && p[..k] == want[..k]
    ensures !Passes(p, want)
  {
    if decided {
      PathLtAsymmetric(want, p);
    }
    assert Reads(p, want, k);
  }

  lemma Skipped(p: Path, want: Path, k: nat)
    requires PathLt(p, want) && k < |p| && k < |want| && p[k] != want[k]
    requires forall i :: 0 <= i <= k ==> |p[i]| + |OBJECT| < TAG_MAX_SIZE
    ensures Passes(p, want)
  {
    forall i | k < i < |p| && i <= |want|
      ensures p[..i] != want[..i]
    {
      assert p[..i][k] == p[k] && want[..i][k] == want[k];
    }
  }

  lemma LastRead(p: Path, want: Path, k: nat, cmp: int)
    requires |p| == k + 1 && forall i :: 0 <= i <= k ==> |p[i]| + |OBJECT| < TAG_MAX_SIZE
    requires cmp == 0 ==> Compatible(p, want) && k < |want| && p[..k + 1] == want[..k + 1]
    ensures Passes(p, want) && (cmp == 0 ==> p == want)
  {
    if cmp == 0 {
      WholePath(p, want, k);
    }
  }

  /** What is known of the whole path once its component k is read and compared. */
  lemma OneRead(p: Path, want: Path, k: nat, decided: bool, ok: bool, cmp: int)
    requires k < |p| && forall i :: 0 <= i < k ==> |p[i]| + |OBJECT| < TAG_MAX_SIZE
    requires ok <==> |p[k]| + |OBJECT| < TAG_MAX_SIZE
    requires if decided then PathLt(want, p) else k <= |want| && p[..k] == want[..k]
    requires ok && cmp > 0 ==> PathLt(p, want) && k < |want| && p[k] != want[k]
    requires ok && cmp == 0 ==> Compatible(p, want) && k < |want| && p[..k + 1] == want[..k + 1]
    ensures !ok ==> !Passes(p, want)
    ensures ok && cmp > 0 ==> Passes(p, want)
    ensures ok && cmp <= 0 && |p| == k + 1 ==> Passes(p, want) && (cmp == 0 ==> p == want)
  {
    if !ok {
      TooLong(p, want, k, decided);
    } else if cmp > 0 {
      Skipped(p, want, k);
    } else if |p| == k + 1 {
      LastRead(p, want, k, cmp);
    }
  }

  lemma Decide(p: Path, q: Path, k: nat, cmp: int)
    requires k < |p| && k < |q| && p[..k] == q[..k] && Compatible(p, q)
    requires cmp == StrCmp(q[k], p[k])
    requires cmp != 0 || |q| == k + 1
    ensures cmp == 0 <==> p == q
    ensures cmp < 0 ==> PathLt(q, p)
    ensures cmp > 0 ==> PathLt(p, q)
  {
    if cmp == 0 {
      CompatibleGoesOn(q, p, k);
    } else if cmp < 0 {
      PathLtAt(q, p, k);
    } else {
      PathLtAt(p, q, k);
    }
  }

  lemma AppendEntry(entries: File, section: Path, top: string, e: Entry)
    requires ValidEntry(e) && AllDone(entries, |entries|, section + [top])
    requires |e.path| == |section| + 1 && e.path[..|section|] == section && StrLt(top, e.path[|section|])
    ensures ValidFile(entries + [e])
    ensures AllDone(entries + [e], |entries| + 1, e.path)
    ensures Bytes(entries + [e]) == Bytes(entries) + TagBytes(e.path, e.kind) + DataBytes(e.data)
  {
    assert e.path == section + [e.path[|section|]];
    EnterSection(entries, |entries|, section, top, e.path[|section|]);
    SortedSnoc(entries, e);
    BytesSnoc(entries, e);
  }

  // ---------------------------------------------------------------- the open file

  type Sections = p: Path | |p| <= MAX_PREFIX_TAGS && ValidPath(p) witness []

  type Slots = s: seq<string> | |s| == MAX_PREFIX_TAGS + 1
    witness ["", "", "", "", "", "", "", "", ""]

  class FileIo {
    var readOnly: bool
    var foundOnDisk: bool
    var version: int

    // io.stdio: the bytes still to be read, or the bytes written so far; and feof()
    var stream: string
    var eof: bool

    // disk_tags: the tag path read ahead
    var diskTag: Slots
    var diskType: Slots
    var diskUsed: nat

    // prefix_tags: the open sections; prev_tags: the last name used at each depth
    var prefix: Sections
    var prev: seq<string>

    // the entries of the file, and how many of them have been written or passed
    ghost var entries: File
    ghost var pos: nat

    /** `file_setup_file_io` of a file that is to be written. */
    constructor ForWriting()
      ensures Ordered() && Writing() && prefix == [] && entries == [] && Top() == ""
    {
      readOnly, foundOnDisk, version, stream, eof := false, false, 0, "", false;
      diskTag, diskType := seq(MAX_PREFIX_TAGS + 1, i => ""), seq(MAX_PREFIX_TAGS + 1, i => "");
      diskUsed, prefix, prev := 0, [], [""];
      entries, pos := [], 0;
    }

    /** `file_setup_file_io` of a file with these bytes that is to be read. */
    constructor ForReading(bytes: string, ghost content: File)
      requires bytes == Bytes(content)
      ensures Ordered() && AtBoundary() && prefix == [] && entries == content && Top() == ""
    {
      readOnly, foundOnDisk, version, stream, eof := true, false, 0, bytes, false;
      diskTag, diskType := seq(MAX_PREFIX_TAGS + 1, i => ""), seq(MAX_PREFIX_TAGS + 1, i => "");
      diskUsed, prefix, prev := 0, [], [""];
      entries, pos := content, 0;
    }

    ghost function Top(): string
      requires prev != []
      reads this`prev
    {
      prev[|prev| - 1]
    }

    /** Everything written or passed so far is `Done` with respect to `prefix + [Top()]`. */
    ghost predicate Ordered()
      reads this`prefix, this`prev, this`entries, this`pos
    {
      && |prev| == |prefix| + 1
      && prev[..|prefix|] == prefix
      && pos <= |entries|
      && AllDone(entries, pos, prefix + [Top()])
    }

    ghost predicate Writing()
      reads this`readOnly, this`stream, this`entries, this`pos
    {
      !readOnly && pos == |entries| && stream == Bytes(entries)
    }

    /** Reading, with the cursor between two entries. */
    ghost predicate AtBoundary()
      reads this`readOnly, this`stream, this`eof, this`entries, this`pos, this`diskUsed
    {
      readOnly && pos <= |entries| && diskUsed == 0 && stream == Bytes(entries[pos..]) && (eof ==> stream == "")
    }

    /** Reading, with the tag path of the next entry already read but not its data. */
    ghost predicate Peeked()
      reads this`readOnly, this`stream, this`eof, this`entries, this`pos, this`diskUsed, this`diskTag, this`diskType
    {
      && readOnly && !eof && pos < |entries|
      && PathRead(entries[pos])
      && stream == DataBytes(entries[pos].data) + Bytes(entries[pos + 1..])
    }

    ghost predicate PathRead(e: Entry)
      reads this`diskUsed, this`diskTag, this`diskType
    {
      && 0 < diskUsed <= MAX_PREFIX_TAGS + 1
      && diskTag[..diskUsed] == e.path && diskType[diskUsed - 1] == e.kind
    }

    ghost predicate Reading()
      reads this`readOnly, this`stream, this`eof, this`entries, this`pos, this`diskUsed, this`diskTag, this`diskType
    {
      AtBoundary() || Peeked()
    }

    // -------------------------------------------------------------- sections

    method FileSectionBeg(tag: string)
      requires Ordered() && |prefix| < MAX_PREFIX_TAGS && ValidTag(tag) && StrLt(Top(), tag)
      modifies this`prefix, this`prev
      ensures Ordered()
      ensures prefix == old(prefix) + [tag] && prev == old(prev[..|prefix|]) + [tag, ""]
    {
      EnterSection(entries, pos, prefix, Top(), tag);
      ValidPathSnoc(prefix, tag);
      prev := prev[|prefix| := tag];
      prefix := prefix + [tag];
      prev := prev + [""];
    }

    method FileSectionEnd(tag: string)
      requires Ordered() && prefix != [] && tag == prefix[|prefix| - 1]
      modifies this`prefix, this`prev
      ensures Ordered()
      ensures prefix == old(prefix)[..|old(prefix)| - 1] && prev == old(prev)[..|old(prefix)|]
      ensures Top() == tag
    {
      ghost var outer := prefix[..|prefix| - 1];
      assert prefix == outer + [tag];
      LeaveSection(entries, pos, outer, tag, Top());
      ValidPathPrefix(prefix, |prefix| - 1);
      assert prev[|prefix| - 1] == prev[..|prefix|][|prefix| - 1] == tag;
      prefix := prefix[..|prefix| - 1];
      prev := prev[..|prefix| + 1];
      assert tag == prev[|prefix|];
    }

    // -------------------------------------------------------------- output

    method PutEntryTag(tag: string, kind: string)
      requires |prev| == |prefix| + 1 && StrLt(Top(), tag)
      modifies this`stream, this`prev
      ensures stream == old(stream) + TagBytes(prefix + [tag], kind)
      ensures prev == old(prev)[..|prefix|] + [tag]
    {
      prev := prev[|prefix| := tag];
      var n := 0;
      while n < |prefix|
        invariant n <= |prefix| && prev == old(prev)[..|prefix|] + [tag]
        invariant stream + TagBytes(prefix[n..] + [tag], kind) == old(stream) + TagBytes(prefix + [tag], kind)
      {
        assert (prefix[n..] + [tag])[1..] == prefix[n + 1..] + [tag];
        stream := stream + prefix[n] + OBJECT + ".";
        n := n + 1;
      }
      assert prefix[n..] + [tag] == [tag];
      stream := stream + tag + kind + ":";
    }

    /** `put_entry_tag` followed by `finnish_put_entry`: the common part of every `file_put_*`. */
    method PutEntry(tag: string, kind: string, buffer: string)
      requires Ordered() && Writing() && ValidTag(tag) && ValidKind(kind) && StrLt(Top(), tag)
      requires |buffer| <= INT_MAX
      modifies this`stream, this`prev, this`entries, this`pos
      ensures Ordered() && Writing()
      ensures entries == old(entries) + [Entry(prefix + [tag], kind, buffer)]
      ensures prev == old(prev)[..|prefix|] + [tag]
    {
      ghost var e := Entry(prefix + [tag], kind, buffer);
      ValidPathSnoc(prefix, tag);
      AppendEntry(entries, prefix, Top(), e);
      PutEntryTag(tag, kind);
      DataAppended(stream, buffer, Dec(|buffer|));
      stream := stream + Dec(|buffer|) + ":" + buffer + "\n";
      entries := entries + [e];
      pos := pos + 1;
    }

    method FilePutString(tag: string, str: string)
      requires Ordered() && Writing() && ValidTag(tag) && StrLt(Top(), tag)
      requires |str| <= INT_MAX
      modifies this`stream, this`prev, this`entries, this`pos
      ensures Ordered() && Writing()
      ensures entries == old(entries) + [Entry(prefix + [tag], STRING, str)]
      ensures prev == old(prev)[..|prefix|] + [tag]
    {
      PutEntry(tag, STRING, str);
    }

    /** The signed and unsigned number writers differ only in the type suffix. */
    method FilePutNumber(tag: string, kind: string, toPut: int)
      requires Ordered() && Writing() && ValidTag(tag) && ValidKind(kind) && StrLt(Top(), tag)
      requires |Signed(toPut)| <= INT_MAX
      modifies this`stream, this`prev, this`entries, this`pos
      ensures Ordered() && Writing()
      ensures entries == old(entries) + [Entry(prefix + [tag], kind, Signed(toPut))]
      ensures prev == old(prev)[..|prefix|] + [tag]
    {
      PutEntry(tag, kind, Signed(toPut));
    }

    method FilePutBitflag(tag: string, toPut: bool)
      requires Ordered() && Writing() && ValidTag(tag) && StrLt(Top(), tag)
      modifies this`stream, this`prev, this`entries, this`pos
      ensures Ordered() && Writing()
      ensures entries == old(entries) + [Entry(prefix + [tag], BITFLAG, if toPut then "1" else "0")]
      ensures prev == old(prev)[..|prefix|] + [tag]
    {
      var buffer := "1";
      if !toPut {
        buffer := buffer[0 := '0'];
        assert buffer == "0";
      }
      PutEntry(tag, BITFLAG, buffer);
    }

    // -------------------------------------------------------------- input

    method Getc() returns (c: Option<char>)
      modifies this`stream, this`eof
      ensures old(stream) != "" ==> c == Some(old(stream)[0]) && stream == old(stream)[1..] && eof == old(eof)
      ensures old(stream) == "" ==> c == None && stream == "" && eof
    {
      if stream != "" {
        c := Some(stream[0]);
        stream := stream[1..];
      } else {
        c := None;
        eof := true;
      }
    }

    /** `ungetc(getc())`: afterwards the end-of-file flag says whether anything is left. */
    method Probe()
      modifies this`stream, this`eof
      ensures stream == old(stream) && eof == (stream == "")
    {
      var c := Getc();
      if c.Some? {
        stream := [c.value] + stream;
        eof := false;
      }
    }

    /** `fseek(SEEK_CUR)` */
    method SkipFileLength(length: nat)
      requires length <= |stream|
      modifies this`stream, this`eof
      ensures stream == old(stream)[length..] && !eof
    {
      stream := stream[length..];
      eof := false;
    }

    method FinishGetEntry(ghost tail: string)
      requires stream == "\n" + tail
      modifies this`stream, this`eof, this`diskUsed
      ensures stream == tail && diskUsed == 0 && eof == old(eof)
    {
      var tmp := Getc();
      assert tmp == Some('\n');
      diskUsed := 0;
    }

    method GetEntryLength(ghost n: nat, ghost tail: string) returns (length: nat)
      requires stream == Dec(n) + ":" + tail
      modifies this`stream, this`eof
      ensures stream == tail && length == n && eof == old(eof)
    {
      ghost var full := stream;
      ghost var i := 0;
      var tmp := Getc();
      length := 0;
      while tmp.Some? && IsDigit(tmp.value)
        invariant i <= |Dec(n)| && stream == full[i + 1..] && tmp == Some(full[i]) && eof == old(eof)
        invariant length == Value(Dec(n)[..i])
        decreases |Dec(n)| - i
      {
        assert i < |Dec(n)|;
        ValueStep(Dec(n), i);
        length := length * 10 + DigitValue(tmp.value);
        tmp := Getc();
        i := i + 1;
      }
      if i < |Dec(n)| {
        PadDigits(n, 0, i);
      }
      assert i == |Dec(n)| && tmp == Some(':');
      ValueOfPad(n, 0);
      assert Dec(n)[..i] == Dec(n);
    }

    method SkipEntry(ghost content: string, ghost tail: string)
      requires stream == DataBytes(content) + tail
      modifies this`stream, this`eof, this`diskUsed
      ensures stream == tail && diskUsed == 0 && !eof
    {
      assert stream == Dec(|content|) + ":" + (content + "\n" + tail);
      var length := GetEntryLength(|content|, content + "\n" + tail);
      assert stream[length..] == "\n" + tail;
      SkipFileLength(length);
      FinishGetEntry(tail);
    }

    method SkipRestTag(ghost w: string, ghost tail: string)
      requires stream == w + ":" + tail && forall i :: 0 <= i < |w| ==> w[i] != ':'
      modifies this`stream, this`eof
      ensures stream == tail && eof == old(eof)
    {
      ghost var full := stream;
      ghost var i := 0;
      var tmp := Getc();
      while tmp.Some? && tmp.value != ':'
        invariant i <= |w| && stream == full[i + 1..] && tmp == Some(full[i]) && eof == old(eof)
        decreases |w| - i
      {
        tmp := Getc();
        i := i + 1;
      }
      assert i == |w| && tmp == Some(':');
    }

    /** One component of a tag path with its type, up to the '.' or ':' behind it. */
    method GetEntryNextTag(current: Option<char>, ghost w: string, ghost sep: char, ghost tail: string)
      returns (ok: bool, text: string, next: Option<char>)
      requires TagText(w) && (sep == '.' || sep == ':') && |w| < TAG_MAX_SIZE + 2
      requires current.Some? && [current.value] + stream == w + [sep] + tail
      modifies this`stream, this`eof
      ensures stream == tail && eof == old(eof)
      ensures ok && text == w && next == Some(sep)
    {
      text := "";
      next := current;
      if next.None? {
        return false, text, next;
      }
      ghost var full := [current.value] + stream;
      assert stream == full[1..];
      while next != Some('.') && next != Some(':')
        invariant |text| <= |w| && text == w[..|text|] && stream == full[|text| + 1..]
        invariant next == Some(full[|text|]) && eof == old(eof)
        decreases |w| - |text|
      {
        assert next.Some? && |text| < TAG_MAX_SIZE + 2;
        text := text + [next.value];
        next := Getc();
      }
      assert |text| == |w|;
      ok := true;
    }

    /** `get_entry_next_tag`, then `seperate_disk_tag_type` cuts the type off the name; not ok
        when its assertion fails. */
    method ReadComponent(ghost path: Path, ghost kind: string, ghost tail: string)
      returns (ok: bool, next: Option<char>)
      requires !eof && diskUsed < |diskTag|
      requires path != [] && ValidTag(path[0]) && ValidKind(kind)
      requires stream == TagBytes(path, kind) + tail
      modifies this`stream, this`eof, this`diskTag, this`diskType
      ensures ok <==> |path[0]| + |OBJECT| < TAG_MAX_SIZE
      ensures !eof && (ok ==> diskTag == old(diskTag)[diskUsed := path[0]])
      ensures ok && |path| == 1 ==> next == Some(':') && stream == tail && diskType == old(diskType)[diskUsed := kind]
      ensures ok && |path| > 1 ==> next == Some('.') && diskType == old(diskType)[diskUsed := OBJECT]
      ensures ok && |path| > 1 ==> stream == TagBytes(path[1..], kind) + tail
    {
      ghost var suffix := if |path| == 1 then kind else OBJECT;
      ghost var w, sep := path[0] + suffix, if |path| == 1 then ':' else '.';
      ghost var after := if |path| == 1 then tail else TagBytes(path[1..], kind) + tail;
      ComponentBytes(path, kind, tail, w, sep, after);
      TagTextAppend(path[0], suffix);
      var tmp := Getc();
      var text;
      ok, text, next := GetEntryNextTag(tmp, w, sep, after);
      assert ok;
      ok := |text| < TAG_MAX_SIZE;
      if ok {
        diskTag := diskTag[diskUsed := text[..|text| - 2]];
        diskType := diskType[diskUsed := text[|text| - 2..]];
      }
    }

    /** The entry whose tag path is being read, with its first k components already read;
        `body` is the data of the entry and everything behind it. */
    ghost predicate ReadingPath(e: Entry, k: nat, body: string)
      reads this`stream, this`eof, this`diskTag
    {
      && !eof && k < |e.path|
      && ValidEntry(e)
      && diskTag[..k] == e.path[..k]
      && stream == TagBytes(e.path[k..], e.kind) + body
    }

    /** The requested path is beyond the entry, of which k + 1 components have been read. */
    method SkipFrom(next: Option<char>, ghost e: Entry, ghost k: nat, ghost body: string, ghost tail: string)
      requires ValidEntry(e) && k < |e.path| && body == DataBytes(e.data) + tail
      requires k == |e.path| - 1 ==> next == Some(':') && stream == body
      requires k < |e.path| - 1 ==> next == Some('.') && stream == TagBytes(e.path[k + 1..], e.kind) + body
      modifies this`stream, this`eof, this`diskUsed
      ensures stream == tail && diskUsed == 0 && !eof
    {
      if next == Some('.') {
        ValidPathSuffix(e.path, k + 1);
        ghost var v := TagBytesEnd(e.path[k + 1..], e.kind);
        SkipRestTag(v, body);
      } else {
        assert next == Some(':');
      }
      SkipEntry(e.data, tail);
    }

    /** Read component `diskUsed` and compare it with the requested path, unless an earlier
        component has decided. */
    method MatchComponent(tag: string, decided: bool, ghost e: Entry, ghost body: string)
      returns (ok: bool, cmp: int, next: Option<char>)
      requires ReadingPath(e, diskUsed, body)
      requires !decided ==> Compatible(e.path, prefix + [tag]) && diskUsed <= |prefix| + 1
      requires !decided ==> e.path[..diskUsed] == (prefix + [tag])[..diskUsed]
      modifies this`stream, this`eof, this`diskTag, this`diskType
      ensures ok <==> |e.path[diskUsed]| + |OBJECT| < TAG_MAX_SIZE
      ensures !eof && (ok ==> diskTag[..diskUsed + 1] == e.path[..diskUsed + 1])
      ensures ok && diskUsed == |e.path| - 1 ==>
        next == Some(':') && diskType[diskUsed] == e.kind && stream == body
      ensures ok && diskUsed < |e.path| - 1 ==>
        next == Some('.') && diskType[diskUsed] == OBJECT && stream == TagBytes(e.path[diskUsed + 1..], e.kind) + body
      ensures decided ==> cmp < 0
      ensures ok && !decided ==> diskUsed <= |prefix|
      ensures ok && !decided && cmp < 0 ==> PathLt(prefix + [tag], e.path)
      ensures ok && !decided && cmp > 0 ==>
        PathLt(e.path, prefix + [tag]) && e.path[diskUsed] != (prefix + [tag])[diskUsed]
      ensures ok && !decided && cmp == 0 ==> e.path[..diskUsed + 1] == (prefix + [tag])[..diskUsed + 1]
    {
      ghost var rest := e.path[diskUsed..];
      ValidPathSuffix(e.path, diskUsed);
      assert rest[1..] == e.path[diskUsed + 1..];
      ok, next := ReadComponent(rest, e.kind, body);
      cmp := -1;
      if !ok {
        return;
      }
      assert diskTag[..diskUsed + 1] == e.path[..diskUsed] + [rest[0]] == e.path[..diskUsed + 1];
      if !decided {
        ghost var want := prefix + [tag];
        CompatibleGoesOn(e.path, want, diskUsed);
        var wantTag := if diskUsed < |prefix| then prefix[diskUsed] else tag;
        cmp := StrCmp(wantTag, diskTag[diskUsed]);
        if cmp > 0 {
          PathLtAt(e.path, want, diskUsed);
        } else if cmp < 0 {
          PathLtAt(want, e.path, diskUsed);
        }
      }
    }

    /** One component more of the tag path, or, if it comes before the requested path, the
        whole entry skipped. */
    method ReadOn(tag: string, decided: bool, ghost e: Entry, ghost body: string, ghost tail: string)
      returns (ok: bool, cmp: int, next: Option<char>)
      requires diskUsed < |e.path| && ReadingPath(e, diskUsed, body) && body == DataBytes(e.data) + tail
      requires Compatible(e.path, prefix + [tag]) && (decided ==> PathLt(prefix + [tag], e.path))
      requires !decided ==> diskUsed <= |prefix| + 1 && e.path[..diskUsed] == (prefix + [tag])[..diskUsed]
      requires forall i :: 0 <= i < diskUsed ==> |e.path[i]| + |OBJECT| < TAG_MAX_SIZE
      modifies this`stream, this`eof, this`diskTag, this`diskType, this`diskUsed
      ensures ok <==> |e.path[old(diskUsed)]| + |OBJECT| < TAG_MAX_SIZE
      ensures !ok ==> !Passes(e.path, prefix + [tag])
      ensures ok && cmp > 0 ==> Passes(e.path, prefix + [tag])
      ensures !eof && (decided ==> cmp < 0)
      ensures ok && cmp > 0 ==> PathLt(e.path, prefix + [tag]) && diskUsed == 0 && stream == tail
      ensures ok && cmp <= 0 ==> diskUsed == old(diskUsed) && diskTag[..diskUsed + 1] == e.path[..diskUsed + 1]
      ensures ok && cmp < 0 ==> PathLt(prefix + [tag], e.path)
      ensures ok && cmp == 0 ==> diskUsed <= |prefix| && e.path[..diskUsed + 1] == (prefix + [tag])[..diskUsed + 1]
      ensures ok && cmp <= 0 && diskUsed == |e.path| - 1 ==>
        && next == Some(':') && diskType[diskUsed] == e.kind && stream == body
        && Passes(e.path, prefix + [tag]) && (cmp == 0 ==> diskUsed == |prefix| && e.path == prefix + [tag])
      ensures ok && cmp <= 0 && diskUsed < |e.path| - 1 ==>
        && next == Some('.') && diskType[diskUsed] == OBJECT
        && stream == TagBytes(e.path[diskUsed + 1..], e.kind) + body
    {
      ghost var want, k := prefix + [tag], diskUsed;
      ok, cmp, next := MatchComponent(tag, decided, e, body);
      OneRead(e.path, want, k, decided, ok, cmp);
      if ok && cmp > 0 {
        SkipFrom(next, e, k, body, tail);
      }
    }

    /** The loop of `get_entry_tag`, up to the last component of the tag path. */
    method ReadComponents(tag: string, ghost e: Entry, ghost body: string, ghost tail: string)
      returns (ok: bool, cmp: int, loadTagReturnFalse: bool)
      requires diskUsed == 0 && ReadingPath(e, 0, body) && body == DataBytes(e.data) + tail
      requires Compatible(e.path, prefix + [tag])
      modifies this`stream, this`eof, this`diskTag, this`diskType, this`diskUsed
      ensures ok <==> Passes(e.path, prefix + [tag])
      ensures !eof
      ensures ok && cmp > 0 ==> PathLt(e.path, prefix + [tag]) && diskUsed == 0 && stream == tail
      ensures ok && cmp <= 0 ==>
        && diskUsed == |e.path| - 1 && diskTag[..|e.path|] == e.path && diskType[diskUsed] == e.kind && stream == body
        && loadTagReturnFalse == (cmp < 0)
      ensures ok && cmp == 0 ==> diskUsed == |prefix| && e.path == prefix + [tag]
      ensures ok && cmp < 0 ==> PathLt(prefix + [tag], e.path)
    {
      ghost var want := prefix + [tag];
      loadTagReturnFalse := false;
      var next: Option<char>;
      ok, cmp := true, 0;
      while true
        invariant ReadingPath(e, diskUsed, body)
        invariant forall i :: 0 <= i < diskUsed ==> |e.path[i]| + |OBJECT| < TAG_MAX_SIZE
        invariant loadTagReturnFalse ==> PathLt(want, e.path)
        invariant !loadTagReturnFalse ==> diskUsed <= |prefix| + 1 && e.path[..diskUsed] == want[..diskUsed]
        decreases |e.path| - diskUsed
      {
        ok, cmp, next := ReadOn(tag, loadTagReturnFalse, e, body, tail);
        if !ok || cmp > 0 {
          return;
        } else if cmp < 0 {
          loadTagReturnFalse := true;
        }
        if next == Some('.') {
          assert diskType[diskUsed] == OBJECT;
          diskUsed := diskUsed + 1;
        } else {
          assert next == Some(':') && diskUsed == |e.path| - 1;
          break;
        }
      }
    }

    /** `get_entry_tag` from one entry to the next: read the tag path, comparing it on the way with
        the requested one; an entry that comes before is skipped. The assertion on the length of
        names holds exactly if all names that are read are short. */
    method ReadTagPath(tag: string, kind: string, ghost e: Entry, ghost body: string, ghost tail: string)
      returns (ok: bool, cmp: int)
      requires diskUsed == 0 && ReadingPath(e, 0, body) && body == DataBytes(e.data) + tail
      requires Compatible(e.path, prefix + [tag])
      requires e.path == prefix + [tag] ==> e.kind == kind
      modifies this`stream, this`eof, this`diskTag, this`diskType, this`diskUsed
      ensures ok <==> Passes(e.path, prefix + [tag])
      ensures !eof
      ensures ok && cmp > 0 ==> PathLt(e.path, prefix + [tag]) && diskUsed == 0 && stream == tail
      ensures ok && cmp <= 0 ==> PathRead(e) && stream == body
      ensures ok && cmp == 0 ==> e.path == prefix + [tag]
      ensures ok && cmp < 0 ==> PathLt(prefix + [tag], e.path)
    {
      var loadTagReturnFalse;
      ok, cmp, loadTagReturnFalse := ReadComponents(tag, e, body, tail);
      if ok && cmp <= 0 {
        assert diskUsed == |prefix| || loadTagReturnFalse;
        assert loadTagReturnFalse || diskType[diskUsed] == kind;
        diskUsed := diskUsed + 1;
      }
    }

    method CheckEntryTag(tag: string, ghost e: Entry) returns (cmp: int)
      requires PathRead(e) && Compatible(e.path, prefix + [tag])
      ensures cmp == 0 <==> e.path == prefix + [tag]
      ensures cmp < 0 ==> PathLt(prefix + [tag], e.path)
      ensures cmp > 0 ==> PathLt(e.path, prefix + [tag])
    {
      ghost var want := prefix + [tag];
      var tmp := 0;
      while tmp < |prefix|
        invariant tmp <= |prefix| && tmp < |e.path| && e.path[..tmp] == want[..tmp]
      {
        CompatibleGoesOn(e.path, want, tmp);
        assert diskTag[tmp] == e.path[tmp];
        cmp := StrCmp(prefix[tmp], diskTag[tmp]);
        if cmp != 0 {
          Decide(e.path, want, tmp, cmp);
          return;
        }
        tmp := tmp + 1;
        CompatibleGoesOn(want, e.path, tmp);
      }
      assert diskTag[tmp] == e.path[tmp];
      cmp := StrCmp(tag, diskTag[tmp]);
      Decide(e.path, want, tmp, cmp);
    }

    /** One round from `restart_get_entry_tag`: the next entry is skipped, or read ahead. */
    method NextEntry(tag: string, kind: string) returns (cmp: int)
      requires AtBoundary() && !eof && pos < |entries| && Passes(entries[pos].path, prefix + [tag])
      requires Matches(entries, prefix + [tag], kind)
      modifies this`stream, this`eof, this`pos, this`diskTag, this`diskType, this`diskUsed
      ensures cmp > 0 ==> AtBoundary() && pos == old(pos) + 1 && PathLt(entries[old(pos)].path, prefix + [tag])
      ensures cmp <= 0 ==> Peeked() && pos == old(pos)
      ensures cmp == 0 ==> entries[pos].path == prefix + [tag]
      ensures cmp < 0 ==> PathLt(prefix + [tag], entries[pos].path)
    {
      ghost var e, tail := entries[pos], Bytes(entries[pos + 1..]);
      assert e.path[0..] == e.path;
      assert entries[pos..][0] == e && entries[pos..][1..] == entries[pos + 1..];
      var ok;
      ok, cmp := ReadTagPath(tag, kind, e, DataBytes(e.data) + tail, tail);
      assert ok;
      if cmp > 0 {
        pos := pos + 1;
      }
    }

    /** `get_entry_tag` from `restart_get_entry_tag` on: read entries until one is the
        requested one or comes behind it. */
    method SeekEntry(tag: string, kind: string) returns (found: bool)
      requires AtBoundary() && AllBelow(entries, pos, prefix + [tag])
      requires Matches(entries, prefix + [tag], kind) && Legible(entries, prefix + [tag])
      modifies this`stream, this`eof, this`pos, this`diskTag, this`diskType, this`diskUsed
      ensures Reading() && AllBelow(entries, pos, prefix + [tag])
      ensures found ==> Peeked() && entries[pos].path == prefix + [tag]
      ensures !found ==> Lookup(entries, prefix + [tag]) == None
    {
      var cmp := 1;
      while cmp > 0
        invariant cmp > 0 ==> AtBoundary()
        invariant cmp <= 0 ==> Peeked()
        invariant cmp == 0 ==> entries[pos].path == prefix + [tag]
        invariant cmp < 0 ==> PathLt(prefix + [tag], entries[pos].path)
        invariant pos <= |entries| && AllBelow(entries, pos, prefix + [tag])
        decreases cmp > 0, |entries| - pos
      {
        Probe();
        if eof {
          Missed(entries, pos, prefix + [tag]);
          return false;
        }
        assert pos < |entries|;
        assert Passes(entries[pos].path, prefix + [tag]);
        cmp := NextEntry(tag, kind);
      }
      if cmp < 0 {
        Missed(entries, pos, prefix + [tag]);
      }
      found := cmp == 0;
    }

    /** `get_entry_tag` before `restart_get_entry_tag`: a tag path read ahead either answers
        the request or is skipped. */
    method CheckReadAhead(tag: string, kind: string) returns (cmp: int)
      requires Peeked() && AllBelow(entries, pos, prefix + [tag]) && Matches(entries, prefix + [tag], kind)
      modifies this`stream, this`eof, this`pos, this`diskUsed
      ensures pos <= |entries| && AllBelow(entries, pos, prefix + [tag])
      ensures cmp > 0 ==> AtBoundary()
      ensures cmp <= 0 ==> Peeked()
      ensures cmp == 0 ==> entries[pos].path == prefix + [tag]
      ensures cmp < 0 ==> Lookup(entries, prefix + [tag]) == None
    {
      cmp := CheckEntryTag(tag, entries[pos]);
      if cmp == 0 {
        assert diskType[diskUsed - 1] == kind;
      } else if cmp < 0 {
        Missed(entries, pos, prefix + [tag]);
      } else {
        SkipEntry(entries[pos].data, Bytes(entries[pos + 1..]));
        pos := pos + 1;
      }
    }

    /** What a reader may ask for next: a later name in the open section, no name of which is
        both a tag and a section, with the type it was written with, and without coming to a
        name that is too long. */
    ghost predicate Requestable(tag: string, kind: string)
      requires prev != []
      reads this`prefix, this`prev, this`entries
    {
      && ValidTag(tag) && StrLt(Top(), tag)
      && Matches(entries, prefix + [tag], kind) && Legible(entries, prefix + [tag])
    }

    /** Move the one-pass reader to the requested entry, or find that it is not there. */
    method GetEntryTag(tag: string, kind: string) returns (found: bool)
      requires Ordered() && Reading() && Requestable(tag, kind)
      modifies this`prev, this`foundOnDisk, this`stream, this`eof, this`pos
      modifies this`diskTag, this`diskType, this`diskUsed
      ensures Ordered() && Reading() && found == foundOnDisk
      ensures prev == old(prev)[..|prefix|] + [tag]
      ensures found ==> Peeked() && entries[pos].path == prefix + [tag]
      ensures !found ==> Lookup(entries, prefix + [tag]) == None
    {
      EnterSection(entries, pos, prefix, Top(), tag);
      prev := prev[|prefix| := tag];
      assert Top() == tag && prev[..|prefix|] == prefix;
      found := Locate(tag, kind);
      BelowIsDone(entries, pos, prefix + [tag]);
    }

    method Locate(tag: string, kind: string) returns (found: bool)
      requires Reading() && AllBelow(entries, pos, prefix + [tag]) && Matches(entries, prefix + [tag], kind)
      requires Legible(entries, prefix + [tag])
      modifies this`foundOnDisk, this`stream, this`eof, this`pos, this`diskTag, this`diskType, this`diskUsed
      ensures Reading() && AllBelow(entries, pos, prefix + [tag]) && found == foundOnDisk
      ensures found ==> Peeked() && entries[pos].path == prefix + [tag]
      ensures !found ==> Lookup(entries, prefix + [tag]) == None
    {
      found := Search(tag, kind);
      foundOnDisk := found;
    }

    method Search(tag: string, kind: string) returns (found: bool)
      requires Reading() && AllBelow(entries, pos, prefix + [tag]) && Matches(entries, prefix + [tag], kind)
      requires Legible(entries, prefix + [tag])
      modifies this`stream, this`eof, this`pos, this`diskTag, this`diskType, this`diskUsed
      ensures Reading() && AllBelow(entries, pos, prefix + [tag])
      ensures found ==> Peeked() && entries[pos].path == prefix + [tag]
      ensures !found ==> Lookup(entries, prefix + [tag]) == None
    {
      if diskUsed != 0 {
        var cmp := CheckReadAhead(tag, kind);
        if cmp <= 0 {
          return cmp == 0;
        }
      }
      found := SeekEntry(tag, kind);
    }

    // -------------------------------------------------------------- typed input

    /** What lookup finds under a name of the open section. */
    ghost function Stored(tag: string): Option<string>
      reads this`prefix, this`entries
    {
      Lookup(entries, prefix + [tag])
    }

    /** FILE_IO_READ */
    method Read(length: nat) returns (buffer: string)
      modifies this`stream, this`eof
      ensures length <= |old(stream)| ==>
        buffer == old(stream)[..length] && stream == old(stream)[length..] && eof == old(eof)
      ensures length > |old(stream)| ==> buffer == old(stream) && stream == "" && eof
    {
      if length <= |stream| {
        buffer := stream[..length];
        stream := stream[length..];
      } else {
        buffer := stream;
        stream := "";
        eof := true;
      }
    }

    /** The length of the data and its ':'; the data itself comes next. */
    method OpenData(ghost content: string, ghost tail: string) returns (length: nat)
      requires stream == DataBytes(content) + tail
      modifies this`stream, this`eof
      ensures stream == content + ("\n" + tail) && length == |content| && eof == old(eof)
    {
      assert stream == Dec(|content|) + ":" + (content + ("\n" + tail));
      length := GetEntryLength(|content|, content + ("\n" + tail));
    }

    /** The data is read up to `size - 1` bytes and the rest skipped. */
    method TakeString(size: nat, ghost content: string, ghost tail: string) returns (buffer: string)
      requires stream == DataBytes(content) + tail && !eof && size > 0
      modifies this`stream, this`eof, this`diskUsed
      ensures stream == tail && diskUsed == 0 && !eof
      ensures buffer == Truncated(content, size)
    {
      var entryLength := OpenData(content, tail);
      var length := entryLength;
      if length >= size {
        length := size - 1;
      }
      assert stream == content[..length] + (content[length..] + ("\n" + tail));
      buffer := Read(length);
      if !eof {
        if entryLength > length {
          SkipFileLength(entryLength - length);
        }
        FinishGetEntry(tail);
      }
    }

    method TakeMalloc(ghost content: string, ghost tail: string) returns (newStr: string)
      requires stream == DataBytes(content) + tail && !eof
      modifies this`stream, this`eof, this`diskUsed
      ensures stream == tail && diskUsed == 0 && !eof
      ensures newStr == content
    {
      var length := OpenData(content, tail);
      newStr := Read(length);
      if !eof {
        FinishGetEntry(tail);
      }
    }

    /** FILE_GET_UNUMBER, and the digits behind a '-' in FILE_GET_NUMBER. */
    method GetDigits(number: int, count: nat, minus: bool, ghost text: string, ghost tail: string) returns (result: int)
      requires count <= |text| && stream == text[|text| - count..] + tail
      requires forall i :: 0 <= i < |text| ==> IsDigit(text[i])
      requires number == SignedValue(text[..|text| - count], minus)
      modifies this`stream, this`eof
      ensures stream == tail && eof == old(eof)
      ensures result == SignedValue(text, minus)
    {
      var left := count;
      ghost var i := |text| - count;
      result := number;
      while left > 0
        invariant 0 <= left == |text| - i && eof == old(eof)
        invariant stream == text[i..] + tail && result == SignedValue(text[..i], minus)
      {
        FirstOf(text, i, tail);
        var c := Getc();
        ValueStep(text, i);
        var tmpNum := DigitValue(c.value);
        assert 0 <= tmpNum < 10;
        result := if minus then 10 * result - tmpNum else 10 * result + tmpNum;
        left, i := left - 1, i + 1;
      }
      assert text[..|text|] == text && text[|text|..] + tail == tail;
    }

    /** FILE_GET_NUMBER, and the rest of the entry. */
    method TakeNumber(ghost n: int, ghost tail: string) returns (number: int)
      requires stream == DataBytes(Signed(n)) + tail && !eof
      modifies this`stream, this`eof, this`diskUsed
      ensures stream == tail && diskUsed == 0 && !eof
      ensures number == n
    {
      ghost var text := Dec(if n < 0 then -n else n);
      forall i | 0 <= i < |text|
        ensures IsDigit(text[i])
      {
        PadDigits(if n < 0 then -n else n, 0, i);
      }
      ValueOfPad(if n < 0 then -n else n, 0);
      var length := OpenData(Signed(n), tail);
      var signChar := Getc();
      if signChar != Some('-') {
        assert signChar == Some(text[0]) && IsDigit(signChar.value);
        assert stream == text[1..] + ("\n" + tail);
        ValueStep(text, 0);
        number := GetDigits(DigitValue(signChar.value), length - 1, false, text, "\n" + tail);
      } else {
        assert stream == text[0..] + ("\n" + tail);
        number := GetDigits(0, length - 1, true, text, "\n" + tail);
      }
      FinishGetEntry(tail);
    }

    method TakeBitflag(ghost flag: bool, ghost tail: string) returns (bit: bool)
      requires stream == DataBytes(if flag then "1" else "0") + tail && !eof
      modifies this`stream, this`eof, this`diskUsed
      ensures stream == tail && diskUsed == 0 && !eof
      ensures bit == flag
    {
      var length := OpenData(if flag then "1" else "0", tail);
      assert length == 1;
      var c := Getc();
      FinishGetEntry(tail);
      assert c == Some('1') || c == Some('0');
      bit := c == Some('1');
    }

    /** The entry at the cursor answers the last request; its data has the given content. */
    ghost predicate Pending(content: string, tail: string)
      reads this`prefix, this`prev, this`entries, this`pos, this`readOnly
    {
      && readOnly && pos < |entries|
      && content == entries[pos].data && tail == Bytes(entries[pos + 1..])
      && |prev| == |prefix| + 1 && prev[..|prefix|] == prefix
      && AllDone(entries, pos + 1, prefix + [Top()])
    }

    method Begin(tag: string, kind: string) returns (found: bool, ghost content: string, ghost tail: string)
      requires Ordered() && Reading() && Requestable(tag, kind)
      modifies this`prev, this`foundOnDisk, this`stream, this`eof, this`pos
      modifies this`diskTag, this`diskType, this`diskUsed
      ensures prev == old(prev)[..|prefix|] + [tag] && found == foundOnDisk
      ensures !found ==> Ordered() && Reading() && Stored(tag) == None
      ensures found ==> Pending(content, tail) && Stored(tag) == Some(content)
      ensures found ==> stream == DataBytes(content) + tail && !eof
    {
      found := GetEntryTag(tag, kind);
      if !found {
        return false, "", "";
      }
      LookupHit(entries, pos);
      FoundIsDone(entries, pos, prefix + [tag]);
      content, tail := entries[pos].data, Bytes(entries[pos + 1..]);
      assert Top() == tag;
    }

    /** The data has been read: the cursor is between two entries again. */
    ghost method Advance(content: string, tail: string)
      requires Pending(content, tail) && stream == tail && diskUsed == 0 && !eof
      modifies this`pos
      ensures Ordered() && AtBoundary()
    {
      pos := pos + 1;
    }

    /** Exactly the stored string, cut to the buffer; the empty string when there is none.
        Whatever was cut, the cursor is left between two entries. */
    method FileGetString(tag: string, size: nat) returns (buffer: string)
      requires Ordered() && Reading() && Requestable(tag, STRING) && size > 0
      modifies this`prev, this`foundOnDisk, this`stream, this`eof, this`pos
      modifies this`diskTag, this`diskType, this`diskUsed
      ensures Ordered() && Reading() && (foundOnDisk ==> AtBoundary())
      ensures prev == old(prev)[..|prefix|] + [tag]
      ensures foundOnDisk == Stored(tag).Some?
      ensures buffer == if foundOnDisk then Truncated(Stored(tag).value, size) else ""
    {
      var found, content, tail := Begin(tag, STRING);
      buffer := "";
      if found {
        buffer := TakeString(size, content, tail);
        Advance(content, tail);
      }
    }

    /** `file_get_malloc`: the same, but the buffer always fits. */
    method FileGetMalloc(tag: string) returns (newStr: string)
      requires Ordered() && Reading() && Requestable(tag, STRING)
      modifies this`prev, this`foundOnDisk, this`stream, this`eof, this`pos
      modifies this`diskTag, this`diskType, this`diskUsed
      ensures Ordered() && Reading() && (foundOnDisk ==> AtBoundary())
      ensures prev == old(prev)[..|prefix|] + [tag]
      ensures foundOnDisk == Stored(tag).Some?
      ensures newStr == if foundOnDisk then Stored(tag).value else ""
    {
      var found, content, tail := Begin(tag, STRING);
      newStr := "";
      if found {
        newStr := TakeMalloc(content, tail);
        Advance(content, tail);
      }
    }

    /** `file_get_short`, `_int`, `_long` and the unsigned ones: they differ in the type
        suffix and in the range that is asserted. */
    method FileGetNumber(tag: string, kind: string, lo: int, hi: int) returns (number: int)
      requires Ordered() && Reading() && Requestable(tag, kind)
      requires Stored(tag).Some? ==> SpellsNumber(Stored(tag).value, lo, hi)
      modifies this`prev, this`foundOnDisk, this`stream, this`eof, this`pos
      modifies this`diskTag, this`diskType, this`diskUsed
      ensures Ordered() && Reading() && (foundOnDisk ==> AtBoundary())
      ensures prev == old(prev)[..|prefix|] + [tag]
      ensures foundOnDisk == Stored(tag).Some?
      ensures if foundOnDisk then Signed(number) == Stored(tag).value else number == 0
    {
      var found, content, tail := Begin(tag, kind);
      number := 0;
      if found {
        ghost var n :| lo <= n <= hi && content == Signed(n);
        number := TakeNumber(n, tail);
        assert lo <= number <= hi;
        Advance(content, tail);
      }
    }

    method FileGetBitflag(tag: string) returns (flag: bool)
      requires Ordered() && Reading() && Requestable(tag, BITFLAG)
      requires Stored(tag).Some? ==> Stored(tag).value == "0" || Stored(tag).value == "1"
      modifies this`prev, this`foundOnDisk, this`stream, this`eof, this`pos
      modifies this`diskTag, this`diskType, this`diskUsed
      ensures Ordered() && Reading() && (foundOnDisk ==> AtBoundary())
      ensures prev == old(prev)[..|prefix|] + [tag]
      ensures foundOnDisk == Stored(tag).Some?
      ensures flag == (Stored(tag) == Some("1"))
    {
      var found, content, tail := Begin(tag, BITFLAG);
      flag := false;
      if found {
        flag := TakeBitflag(content == "1", tail);
        Advance(content, tail);
      }
    }
  }
}

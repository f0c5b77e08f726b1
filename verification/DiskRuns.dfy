/** The file format is unambiguous, and a whole run of requests is a run of map lookups. */
module DiskRuns {
  import opened Options
  import opened CStrings
  import opened Paths
  import opened Disk

  // ---------------------------------------------------------------- one file, one tree

  /** Text up to the first separator is determined by the whole. */
  lemma SplitAtSeparator(v: string, c: char, x: string, w: string, d: char, y: string)
    requires v + [c] + x == w + [d] + y
    requires TagText(v) && TagText(w)
    requires c in ".:" && d in ".:"
    ensures v == w && c == d && x == y
  {
    var s := v + [c] + x;
    assert s == w + [d] + y;
    assert s[|v|] == c && s[|w|] == d;
    assert v == s[..|v|] && w == s[..|w|];
    assert x == s[|v| + 1..] && y == s[|w| + 1..];
  }

  /** The first component with its type, and the separator behind it. */
  function HeadText(p: Path, k: string): string
    requires p != []
  {
    p[0] + if |p| == 1 then k else OBJECT
  }

  function HeadSeparator(p: Path): char {
    if |p| == 1 then ':' else '.'
  }

  function Behind(p: Path, k: string, x: string): string
    requires p != []
  {
    if |p| == 1 then x else TagBytes(p[1..], k) + x
  }

  lemma TagBytesHead(p: Path, k: string, x: string)
    requires p != [] && ValidPath(p) && ValidKind(k)
    ensures TagBytes(p, k) + x == HeadText(p, k) + [HeadSeparator(p)] + Behind(p, k, x)
    ensures TagText(HeadText(p, k))
  {
    assert TagText(OBJECT);
    TagTextAppend(p[0], if |p| == 1 then k else OBJECT);
    if |p| > 1 {
      ConcatHead(p[0], TagBytes(p[1..], k), x);
    }
  }

  lemma ConcatHead(name: string, more: string, x: string)
    ensures name + OBJECT + "." + more + x == name + OBJECT + ['.'] + (more + x)
  {
  }

  lemma HeadInjective(p: Path, k: string, q: Path, l: string)
    requires p != [] && ValidKind(k) && q != [] && ValidKind(l)
    requires HeadText(p, k) == HeadText(q, l) && HeadSeparator(p) == HeadSeparator(q)
    ensures p[0] == q[0] && (|p| == 1 <==> |q| == 1) && (|p| == 1 ==> k == l)
  {
    var s := HeadText(p, k);
    assert p[0] == s[..|s| - 2] == q[0];
    assert |p| == 1 ==> k == s[|s| - 2..] == l;
  }

  lemma HeadsAgree(p: Path, k: string, x: string, q: Path, l: string, y: string)
    requires p != [] && ValidPath(p) && ValidKind(k) && q != [] && ValidPath(q) && ValidKind(l)
    requires TagBytes(p, k) + x == TagBytes(q, l) + y
    ensures p[0] == q[0] && (|p| == 1 <==> |q| == 1) && (|p| == 1 ==> k == l)
    ensures Behind(p, k, x) == Behind(q, l, y)
  {
    TagBytesHead(p, k, x);
    TagBytesHead(q, l, y);
    SplitAtSeparator(HeadText(p, k), HeadSeparator(p), Behind(p, k, x),
                     HeadText(q, l), HeadSeparator(q), Behind(q, l, y));
    HeadInjective(p, k, q, l);
  }

  lemma {:induction false} TagBytesInjective(p: Path, k: string, x: string, q: Path, l: string, y: string)
    requires p != [] && ValidPath(p) && ValidKind(k) && q != [] && ValidPath(q) && ValidKind(l)
    requires TagBytes(p, k) + x == TagBytes(q, l) + y
    ensures p == q && k == l && x == y
  {
    HeadsAgree(p, k, x, q, l, y);
    if |p| > 1 {
      TagBytesInjective(p[1..], k, x, q[1..], l, y);
    }
    assert p == [p[0]] + p[1..] && q == [q[0]] + q[1..];
  }

  lemma DecIsText(n: nat)
    ensures TagText(Dec(n))
  {
    forall i | 0 <= i < |Dec(n)|
      ensures Dec(n)[i] != '.' && Dec(n)[i] != ':'
    {
      PadDigits(n, 0, i);
    }
  }

  /** The length prefix makes any data unambiguous, whatever separators it holds. */
  lemma DataBytesInjective(s: string, x: string, t: string, y: string)
    requires DataBytes(s) + x == DataBytes(t) + y
    ensures s == t && x == y
  {
    var sx, ty := s + "\n" + x, t + "\n" + y;
    assert DataBytes(s) + x == Dec(|s|) + [':'] + sx;
    assert DataBytes(t) + y == Dec(|t|) + [':'] + ty;
    DecIsText(|s|);
    DecIsText(|t|);
    SplitAtSeparator(Dec(|s|), ':', sx, Dec(|t|), ':', ty);
    PadInjective(|s|, |t|, 0);
    assert s == sx[..|s|] && t == ty[..|t|];
    assert x == sx[|s| + 1..] && y == ty[|t| + 1..];
  }

  lemma BytesEmpty(entries: seq<Entry>)
    ensures Bytes(entries) == "" <==> entries == []
  {
    assert entries != [] ==> |Bytes(entries)| >= |DataBytes(entries[0].data)| >= 1;
  }

  /** Two trees that are written as the same bytes are the same tree. */
  lemma {:induction false} BytesInjective(a: seq<Entry>, b: seq<Entry>)
    requires forall i :: 0 <= i < |a| ==> ValidEntry(a[i])
    requires forall i :: 0 <= i < |b| ==> ValidEntry(b[i])
    requires Bytes(a) == Bytes(b)
    ensures a == b
  {
    BytesEmpty(a);
    BytesEmpty(b);
    if a != [] {
      var x, y := DataBytes(a[0].data) + Bytes(a[1..]), DataBytes(b[0].data) + Bytes(b[1..]);
      assert Bytes(a) == TagBytes(a[0].path, a[0].kind) + x;
      assert Bytes(b) == TagBytes(b[0].path, b[0].kind) + y;
      TagBytesInjective(a[0].path, a[0].kind, x, b[0].path, b[0].kind, y);
      DataBytesInjective(a[0].data, Bytes(a[1..]), b[0].data, Bytes(b[1..]));
      BytesInjective(a[1..], b[1..]);
      assert a == [a[0]] + a[1..] && b == [b[0]] + b[1..];
    }
  }

  // ---------------------------------------------------------------- whole runs

  /** A program that opens and closes sections and uses names in them, to get or to put. */
  datatype Step<T> = Begin(tag: string) | End(tag: string) | Use(tag: string, item: T)

  datatype Named<T> = Named(path: Path, item: T)

  /** What the debugging macros demand of a program: each name is greater than the last one
      used in the same section. `prev` holds those names. */
  predicate Disciplined<T>(steps: seq<Step<T>>, section: Path, prev: seq<string>)
    requires |prev| == |section| + 1
    decreases |steps|
  {
    steps == [] ||
    var top := prev[|section|];
    match steps[0]
    case Begin(tag) =>
      && ValidTag(tag) && StrLt(top, tag) && |section| < MAX_PREFIX_TAGS
      && Disciplined(steps[1..], section + [tag], prev[..|section|] + [tag, ""])
    case End(tag) =>
      && section != [] && tag == section[|section| - 1]
      && Disciplined(steps[1..], section[..|section| - 1], prev[..|section|])
    case Use(tag, _) =>
      && ValidTag(tag) && StrLt(top, tag)
      && Disciplined(steps[1..], section, prev[..|section|] + [tag])
  }

  function Outside(section: Path): Path {
    if section == [] then [] else section[..|section| - 1]
  }

  /** The paths a program uses, in order, and what for. */
  function Used<T>(steps: seq<Step<T>>, section: Path): seq<Named<T>>
    decreases |steps|
  {
    if steps == [] then []
    else match steps[0]
      case Begin(tag) => Used(steps[1..], section + [tag])
      case End(_) => Used(steps[1..], Outside(section))
      case Use(tag, item) => [Named(section + [tag], item)] + Used(steps[1..], section)
  }

  /** The discipline inside each section makes the paths of a whole run strictly increasing:
      whatever is `Done` stays below everything used later. */
  lemma {:induction false} UsedAbove<T>(steps: seq<Step<T>>, section: Path, prev: seq<string>, p: Path, j: nat)
    requires |prev| == |section| + 1 && prev[..|section|] == section
    requires Disciplined(steps, section, prev)
    requires Done(p, section + [prev[|section|]])
    requires j < |Used(steps, section)|
    ensures PathLt(p, Used(steps, section)[j].path)
    decreases |steps|
  {
    var top := prev[|section|];
    match steps[0]
    case Begin(tag) =>
      DoneBelow(p, section, top, tag);
      ExtendFloor(p, section + [tag], [""]);
      UsedAbove(steps[1..], section + [tag], prev[..|section|] + [tag, ""], p, j);
    case End(tag) =>
      var outer := section[..|section| - 1];
      assert section == outer + [tag];
      DoneOutside(p, outer, tag, top);
      assert prev[..|section|] == outer + [tag];
      UsedAbove(steps[1..], outer, prev[..|section|], p, j);
    case Use(tag, _) =>
      DoneBelow(p, section, top, tag);
      if j > 0 {
        UsedAbove(steps[1..], section, prev[..|section|] + [tag], p, j - 1);
      }
  }

  lemma {:induction false} UsedIncreasing<T>(steps: seq<Step<T>>, section: Path, prev: seq<string>, i: nat, j: nat)
    requires |prev| == |section| + 1 && prev[..|section|] == section
    requires Disciplined(steps, section, prev)
    requires i < j < |Used(steps, section)|
    ensures PathLt(Used(steps, section)[i].path, Used(steps, section)[j].path)
    decreases |steps|
  {
    match steps[0]
    case Begin(tag) => UsedIncreasing(steps[1..], section + [tag], prev[..|section|] + [tag, ""], i, j);
    case End(tag) =>
      assert prev[..|section|] == section[..|section| - 1] + [tag];
      UsedIncreasing(steps[1..], section[..|section| - 1], prev[..|section|], i, j);
    case Use(tag, _) =>
      var now := prev[..|section|] + [tag];
      if i == 0 {
        UsedAbove(steps[1..], section, now, section + [tag], j - 1);
      } else {
        UsedIncreasing(steps[1..], section, now, i - 1, j - 1);
      }
  }

  // ---------------------------------------------------------------- reading

  datatype Datum = Text(str: string) | Number(n: int) | Flag(bit: bool)

  /** Which of the `file_get_` functions is called. The numbers differ in the type suffix and
      in the range that is asserted. */
  datatype Want = WantText | WantCut(size: nat) | WantNumber(kind: string, lo: int, hi: int) | WantFlag

  function KindOf(want: Want): string {
    match want
    case WantText => STRING
    case WantCut(_) => STRING
    case WantNumber(kind, _, _) => kind
    case WantFlag => BITFLAG
  }

  /** The number that a text spells. */
  function NumberIn(text: string): int {
    SignedValue(if text != "" && text[0] == '-' then text[1..] else text, text != "" && text[0] == '-')
  }

  lemma NumberInSigned(n: int)
    ensures NumberIn(Signed(n)) == n
  {
    PadDigits(if n < 0 then -n else n, 0, 0);
    ValueOfPad(if n < 0 then -n else n, 0);
    assert n < 0 ==> Signed(n)[1..] == Dec(-n);
  }

  /** What a get gives, by plain lookup: what is stored, or the default. */
  function Answer(want: Want, found: Option<string>): Datum
    requires want.WantCut? ==> want.size > 0
  {
    match want
    case WantText => Text(if found == None then "" else found.value)
    case WantCut(size) => Text(if found == None then "" else Truncated(found.value, size))
    case WantNumber(_, _, _) => Number(if found == None then 0 else NumberIn(found.value))
    case WantFlag => Flag(found == Some("1"))
  }

  /** What the reader asserts of a request: a type that is the entry's, data of that type, and no
      name on the way that is too long. */
  ghost predicate Suits(entries: seq<Entry>, path: Path, want: Want) {
    && Matches(entries, path, KindOf(want)) && Legible(entries, path)
    && (want.WantCut? ==> want.size > 0)
    && (Lookup(entries, path).Some? ==>
          && (want.WantNumber? ==> SpellsNumber(Lookup(entries, path).value, want.lo, want.hi))
          && (want.WantFlag? ==> Lookup(entries, path).value == "0" || Lookup(entries, path).value == "1"))
  }

  ghost predicate AllSuit(entries: seq<Entry>, asked: seq<Named<Want>>) {
    forall i :: 0 <= i < |asked| ==> Suits(entries, asked[i].path, asked[i].item)
  }

  /** Plain lookup of every path asked for. */
  function Answers(entries: seq<Entry>, asked: seq<Named<Want>>): (answers: seq<Datum>)
    requires forall i :: 0 <= i < |asked| && asked[i].item.WantCut? ==> asked[i].item.size > 0
    ensures |answers| == |asked|
    ensures forall i :: 0 <= i < |answers| ==> answers[i] == Answer(asked[i].item, Lookup(entries, asked[i].path))
  {
    if asked == [] then []
    else [Answer(asked[0].item, Lookup(entries, asked[0].path))] + Answers(entries, asked[1..])
  }

  /** One request, typed. */
  method GetOne(fs: FileIo, tag: string, want: Want) returns (answer: Datum)
    requires fs.Ordered() && fs.Reading() && fs.Requestable(tag, KindOf(want))
    requires Suits(fs.entries, fs.prefix + [tag], want)
    modifies fs`prev, fs`foundOnDisk, fs`stream, fs`eof, fs`pos, fs`diskTag, fs`diskType, fs`diskUsed
    ensures fs.Ordered() && fs.Reading() && fs.prev == old(fs.prev)[..|fs.prefix|] + [tag]
    ensures answer == Answer(want, Lookup(fs.entries, fs.prefix + [tag]))
  {
    match want
    case WantText =>
      var str := fs.FileGetMalloc(tag);
      answer := Text(str);
    case WantCut(size) =>
      var str := fs.FileGetString(tag, size);
      answer := Text(str);
    case WantNumber(kind, lo, hi) =>
      var number := fs.FileGetNumber(tag, kind, lo, hi);
      NumberInSigned(number);
      answer := Number(number);
    case WantFlag =>
      var bit := fs.FileGetBitflag(tag);
      answer := Flag(bit);
  }

  /** One pass over the file answers any disciplined run of gets like a map does, whatever
      entries the file has that are not asked for, and whatever is asked for that the file does
      not have. */
  method Serve(fs: FileIo, requests: seq<Step<Want>>) returns (answers: seq<Datum>)
    requires fs.Ordered() && fs.Reading()
    requires Disciplined(requests, fs.prefix, fs.prev)
    requires AllSuit(fs.entries, Used(requests, fs.prefix))
    modifies fs
    ensures answers == Answers(fs.entries, Used(requests, old(fs.prefix)))
    ensures fs.entries == old(fs.entries)
    decreases |requests|
  {
    answers := [];
    if requests == [] {
      return;
    }
    ghost var asked := Used(requests, fs.prefix);
    match requests[0]
    case Begin(tag) =>
      fs.FileSectionBeg(tag);
      answers := Serve(fs, requests[1..]);
    case End(tag) =>
      fs.FileSectionEnd(tag);
      answers := Serve(fs, requests[1..]);
    case Use(tag, want) =>
      assert asked[0] == Named(fs.prefix + [tag], want) && asked[1..] == Used(requests[1..], fs.prefix);
      SuitRest(fs.entries, asked);
      var answer := GetOne(fs, tag, want);
      var rest := Serve(fs, requests[1..]);
      answers := [answer] + rest;
  }

  lemma SuitRest(entries: seq<Entry>, asked: seq<Named<Want>>)
    requires AllSuit(entries, asked) && asked != []
    ensures Suits(entries, asked[0].path, asked[0].item) && AllSuit(entries, asked[1..])
  {
  }

  // ---------------------------------------------------------------- writing, then reading

  /** What is put under a name: a value with its type. */
  datatype Put = Put(kind: string, value: Datum)

  /** A text, a number that its type can hold, or a flag, each with its own type. */
  predicate Puttable(put: Put) {
    match put.value
    case Text(str) => put.kind == STRING && |str| <= INT_MAX
    case Number(n) => ValidKind(put.kind) && |Signed(n)| <= INT_MAX
    case Flag(_) => put.kind == BITFLAG
  }

  function TextOf(value: Datum): string {
    match value
    case Text(str) => str
    case Number(n) => Signed(n)
    case Flag(bit) => if bit then "1" else "0"
  }

  /** The tree that a program writes, flat. */
  function Written(puts: seq<Named<Put>>): (entries: seq<Entry>)
    ensures |entries| == |puts|
    ensures forall i :: 0 <= i < |puts| ==>
      entries[i] == Entry(puts[i].path, puts[i].item.kind, TextOf(puts[i].item.value))
  {
    if puts == [] then []
    else [Entry(puts[0].path, puts[0].item.kind, TextOf(puts[0].item.value))] + Written(puts[1..])
  }

  predicate AllPuttable(writes: seq<Step<Put>>) {
    forall i :: 0 <= i < |writes| && writes[i].Use? ==> Puttable(writes[i].item)
  }

  method PutOne(fs: FileIo, tag: string, put: Put)
    requires fs.Ordered() && fs.Writing() && ValidTag(tag) && StrLt(fs.Top(), tag) && Puttable(put)
    modifies fs`stream, fs`prev, fs`entries, fs`pos
    ensures fs.Ordered() && fs.Writing() && fs.prev == old(fs.prev)[..|fs.prefix|] + [tag]
    ensures fs.entries == old(fs.entries) + [Entry(fs.prefix + [tag], put.kind, TextOf(put.value))]
  {
    match put.value
    case Text(str) => fs.FilePutString(tag, str);
    case Number(n) => fs.FilePutNumber(tag, put.kind, n);
    case Flag(bit) => fs.FilePutBitflag(tag, bit);
  }

  method WriteAll(fs: FileIo, writes: seq<Step<Put>>)
    requires fs.Ordered() && fs.Writing()
    requires Disciplined(writes, fs.prefix, fs.prev) && AllPuttable(writes)
    modifies fs`stream, fs`prefix, fs`prev, fs`entries, fs`pos
    ensures fs.Ordered() && fs.Writing()
    ensures fs.entries == old(fs.entries) + Written(Used(writes, old(fs.prefix)))
    decreases |writes|
  {
    if writes == [] {
      return;
    }
    ghost var base: seq<Entry>, puts := fs.entries, Used(writes, fs.prefix);
    match writes[0]
    case Begin(tag) =>
      fs.FileSectionBeg(tag);
      WriteAll(fs, writes[1..]);
    case End(tag) =>
      fs.FileSectionEnd(tag);
      WriteAll(fs, writes[1..]);
    case Use(tag, put) =>
      assert puts[1..] == Used(writes[1..], fs.prefix);
      PutOne(fs, tag, put);
      WriteAll(fs, writes[1..]);
      WrittenCons(base, puts);
  }

  lemma WrittenCons(base: seq<Entry>, puts: seq<Named<Put>>)
    requires puts != []
    ensures base + [Entry(puts[0].path, puts[0].item.kind, TextOf(puts[0].item.value))] + Written(puts[1..])
      == base + Written(puts)
  {
  }

  /** Every tree that is written in order answers every run of gets in order like a map, as long
      as what is asked for suits the tree. */
  method WriteThenServe(writes: seq<Step<Put>>, requests: seq<Step<Want>>) returns (answers: seq<Datum>)
    requires Disciplined(writes, [], [""]) && AllPuttable(writes) && Disciplined(requests, [], [""])
    requires AllSuit(Written(Used(writes, [])), Used(requests, []))
    ensures answers == Answers(Written(Used(writes, [])), Used(requests, []))
  {
    var fs := new FileIo.ForWriting();
    assert fs.prev == [""];
    WriteAll(fs, writes);
    assert fs.entries == Written(Used(writes, []));
    var io := new FileIo.ForReading(fs.stream, fs.entries);
    assert io.prev == [""];
    answers := Serve(io, requests);
  }

  /** A get of the value that was put: of its type, and with its range. */
  predicate Fits(put: Put, want: Want) {
    && put.kind == KindOf(want)
    && match put.value
       case Text(_) => want.WantText? || (want.WantCut? && want.size > 0)
       case Number(n) => want.WantNumber? && want.lo <= n <= want.hi
       case Flag(_) => want.WantFlag?
  }

  /** A value that comes back; a text may be cut to a buffer. */
  function Seen(value: Datum, want: Want): Datum
    requires want.WantCut? ==> want.size > 0
  {
    if value.Text? && want.WantCut? then Text(Truncated(value.str, want.size)) else value
  }

  /** A reading program that goes along with a writing one. */
  predicate Mirrors(writes: seq<Step<Put>>, requests: seq<Step<Want>>) {
    |writes| == |requests| && forall i :: 0 <= i < |writes| ==>
      match writes[i]
      case Begin(tag) => requests[i] == Begin(tag)
      case End(tag) => requests[i] == End(tag)
      case Use(tag, put) => requests[i].Use? && requests[i].tag == tag && Fits(put, requests[i].item)
  }

  lemma {:induction false} MirrorUses(writes: seq<Step<Put>>, requests: seq<Step<Want>>, section: Path)
    requires Mirrors(writes, requests)
    ensures AllFit(Used(writes, section), Used(requests, section))
    decreases |writes|
  {
    if writes != [] {
      match writes[0]
      case Begin(tag) => MirrorUses(writes[1..], requests[1..], section + [tag]);
      case End(_) => MirrorUses(writes[1..], requests[1..], Outside(section));
      case Use(tag, put) =>
        MirrorUses(writes[1..], requests[1..], section);
        OneMoreFits(Named(section + [tag], put), Named(section + [tag], requests[0].item),
                    Used(writes[1..], section), Used(requests[1..], section));
    }
  }

  predicate AllFit(puts: seq<Named<Put>>, asked: seq<Named<Want>>) {
    |puts| == |asked| && forall i :: 0 <= i < |puts| ==>
      puts[i].path == asked[i].path && Fits(puts[i].item, asked[i].item)
  }

  lemma OneMoreFits(put: Named<Put>, want: Named<Want>, puts: seq<Named<Put>>, asked: seq<Named<Want>>)
    requires AllFit(puts, asked) && put.path == want.path && Fits(put.item, want.item)
    ensures AllFit([put] + puts, [want] + asked)
  {
  }

  lemma {:induction false} MirrorDisciplined(writes: seq<Step<Put>>, requests: seq<Step<Want>>,
                                             section: Path, prev: seq<string>)
    requires |prev| == |section| + 1 && Mirrors(writes, requests) && Disciplined(writes, section, prev)
    ensures Disciplined(requests, section, prev)
    decreases |writes|
  {
    if writes != [] {
      match writes[0]
      case Begin(tag) =>
        MirrorDisciplined(writes[1..], requests[1..], section + [tag], prev[..|section|] + [tag, ""]);
      case End(_) => MirrorDisciplined(writes[1..], requests[1..], section[..|section| - 1], prev[..|section|]);
      case Use(tag, _) => MirrorDisciplined(writes[1..], requests[1..], section, prev[..|section|] + [tag]);
    }
  }

  /** What was put under a path suits the get that fits it, and is what the get gives. */
  lemma FitsSuits(entries: File, i: nat, put: Put, want: Want)
    requires i < |entries| && entries[i].kind == put.kind && entries[i].data == TextOf(put.value) && Fits(put, want)
    requires Readable(entries)
    ensures Suits(entries, entries[i].path, want)
    ensures Answer(want, Lookup(entries, entries[i].path)) == Seen(put.value, want)
  {
    EntryIsStored(entries, i);
    ReadableIsLegible(entries, entries[i].path);
    if put.value.Number? {
      NumberInSigned(put.value.n);
      assert SpellsNumber(entries[i].data, want.lo, want.hi);
    }
  }

  lemma AllSeen(entries: File, puts: seq<Named<Put>>, asked: seq<Named<Want>>)
    requires entries == [] + Written(puts) && Readable(entries)
    requires AllFit(puts, asked)
    ensures AllSuit(entries, asked)
    ensures forall i :: 0 <= i < |puts| ==>
      Answer(asked[i].item, Lookup(entries, asked[i].path)) == Seen(puts[i].item.value, asked[i].item)
  {
    forall i | 0 <= i < |puts|
      ensures Suits(entries, asked[i].path, asked[i].item)
      ensures Answer(asked[i].item, Lookup(entries, asked[i].path)) == Seen(puts[i].item.value, asked[i].item)
    {
      assert entries[i] == Written(puts)[i];
      FitsSuits(entries, i, puts[i].item, asked[i].item);
    }
  }

  /** Every program of puts that is read back by the program of gets that goes along with it
      gets every text, number and flag back, texts cut where the buffer is short. */
  method RoundTrip(writes: seq<Step<Put>>, requests: seq<Step<Want>>) returns (answers: seq<Datum>)
    requires Disciplined(writes, [], [""]) && AllPuttable(writes) && Mirrors(writes, requests)
    requires Readable(Written(Used(writes, [])))
    ensures var puts, asked := Used(writes, []), Used(requests, []);
      && |answers| == |puts| == |asked|
      && forall i :: 0 <= i < |puts| ==>
           Fits(puts[i].item, asked[i].item) && answers[i] == Seen(puts[i].item.value, asked[i].item)
  {
    MirrorUses(writes, requests, []);
    MirrorDisciplined(writes, requests, [], [""]);
    ghost var puts, asked := Used(writes, []), Used(requests, []);
    var fs := new FileIo.ForWriting();
    assert fs.prev == [""];
    WriteAll(fs, writes);
    AllSeen(fs.entries, puts, asked);
    var io := new FileIo.ForReading(fs.stream, fs.entries);
    assert io.prev == [""];
    answers := Serve(io, requests);
  }

  // ---------------------------------------------------------------- names that are too long

  /** Reading every entry of a file by its own path and type: the assertion on the length of
      names holds all the way exactly if no name in the file has 30 or more characters. */
  method ReadEach(fs: FileIo, heads: seq<Named<string>>) returns (ok: bool)
    requires fs.AtBoundary() && fs.pos == 0 && !fs.eof && |heads| == |fs.entries|
    requires forall i :: 0 <= i < |heads| ==>
      heads[i].path == fs.entries[i].path && heads[i].item == fs.entries[i].kind
    modifies fs
    ensures ok <==> Readable(old(fs.entries))
  {
    ok := true;
    var i := 0;
    while i < |heads|
      invariant i <= |heads| && fs.AtBoundary() && fs.pos == i && !fs.eof && fs.entries == old(fs.entries)
      invariant ok && forall j :: 0 <= j < i ==> ShortNames(fs.entries[j].path)
    {
      ok := ReadHead(fs, heads[i].path, heads[i].item);
      if !ok {
        return;
      }
      fs.SkipEntry(fs.entries[i].data, Bytes(fs.entries[i + 1..]));
      fs.pos := fs.pos + 1;
      i := i + 1;
    }
  }

  method ReadHead(fs: FileIo, path: Path, kind: string) returns (ok: bool)
    requires fs.AtBoundary() && !fs.eof && fs.pos < |fs.entries|
    requires path == fs.entries[fs.pos].path && kind == fs.entries[fs.pos].kind
    modifies fs`prefix, fs`stream, fs`eof, fs`diskTag, fs`diskType, fs`diskUsed
    ensures ok <==> ShortNames(path)
    ensures ok ==> !fs.eof && fs.stream == DataBytes(fs.entries[fs.pos].data) + Bytes(fs.entries[fs.pos + 1..])
  {
    var n := |path| - 1;
    ValidPathPrefix(path, n);
    fs.prefix := path[..n];
    assert path == path[..n] + [path[n]];
    ghost var e, tail := fs.entries[fs.pos], Bytes(fs.entries[fs.pos + 1..]);
    assert e.path[0..] == e.path;
    assert fs.entries[fs.pos..][0] == e && fs.entries[fs.pos..][1..] == fs.entries[fs.pos + 1..];
    var cmp;
    PathLtIrreflexive(path);
    ok, cmp := fs.ReadTagPath(path[n], kind, e, DataBytes(e.data) + tail, tail);
  }

  lemma {:induction false} PathLtIrreflexive(p: Path)
    ensures !PathLt(p, p)
    decreases |p|
  {
    if p != [] {
      StrLtTrichotomy(p[0], p[0]);
      PathLtIrreflexive(p[1..]);
    }
  }

  /** A program all of whose names are short writes a tree that can be read. */
  lemma {:induction false} ShortProgram(writes: seq<Step<Put>>, section: Path)
    requires ShortNames(section) && forall i :: 0 <= i < |writes| ==> |writes[i].tag| + |OBJECT| < TAG_MAX_SIZE
    ensures Readable(Written(Used(writes, section)))
    decreases |writes|
  {
    if writes != [] {
      match writes[0]
      case Begin(tag) => ShortProgram(writes[1..], section + [tag]);
      case End(_) => ShortProgram(writes[1..], Outside(section));
      case Use(tag, _) => ShortProgram(writes[1..], section);
    }
  }
}

/** A player's aliases, and the libraries that the player subscribes to, in the player's file. */
module AliasStore {
  import opened Options
  import opened CStrings
  import opened Paths
  import opened Disk
  import opened Records
  import opened Links
  import opened AliasList

  const NAME_WIDTH := 4
  const ALIAS_COMMENT_SZ := 128
  const ALIAS_LIB_LD_SO_SZ := 16
  const ALIAS_LIB_NAME_SZ := 64

  // ---------------------------------------------------------------- what is in the file

  function CommandEntries(section: Path, a: Alias): seq<Entry> {
    [StringEntry(section, "command", a.command), NumberEntry(section, "command_type", SHORT, a.body.commandType)]
  }

  function CommentEntries(section: Path, comment: Option<string>): seq<Entry> {
    if comment.Some? then [BitEntry(section, "comment_do", true), StringEntry(section, "comment_str", comment.value)]
    else [BitEntry(section, "comment_do", false)]
  }

  function FirstFlags(section: Path, f: Flags): seq<Entry> {
    [BitEntry(section, "clever_match", f.cleverMatch), BitEntry(section, "disabled", f.disabled),
     BitEntry(section, "expand_match", f.expandMatch)]
  }

  function MiddleFlags(section: Path, f: Flags): seq<Entry> {
    [BitEntry(section, "hidden", f.hidden), BitEntry(section, "no_beg_space", f.noBegSpace),
     BitEntry(section, "prived", f.prived)]
  }

  function PublicFlags(section: Path, f: Flags): seq<Entry> {
    [BitEntry(section, "public", f.public), BitEntry(section, "sub_command", f.inSubCommand)]
  }

  function LastFlags(section: Path, f: Flags): seq<Entry> {
    PublicFlags(section, f)
    + [BitEntry(section, "sub_command_only", f.inSubCommandOnly), BitEntry(section, "use_name", f.useName)]
  }

  function FlagEntries(section: Path, f: Flags): seq<Entry> {
    FirstFlags(section, f) + MiddleFlags(section, f) + LastFlags(section, f)
  }

  function AliasEntries(section: Path, a: Alias): seq<Entry> {
    CommandEntries(section, a) + CommentEntries(section, a.body.comment)
    + FlagEntries(section + ["flags"], a.body.flags) + [StringEntry(section, "string", a.body.str)]
  }

  /** The sections of the aliases, numbered from 1. */
  function ListBlocks(section: Path, aliases: seq<Alias>): (r: seq<seq<Entry>>)
    ensures |r| == |aliases|
    ensures forall k {:trigger r[k]} :: 0 <= k < |r| ==>
      r[k] == AliasEntries(section + [Pad(k + 1, NAME_WIDTH)], aliases[k])
  {
    if aliases == [] then []
    else ListBlocks(section, aliases[..|aliases| - 1])
         + [AliasEntries(section + [Pad(|aliases|, NAME_WIDTH)], aliases[|aliases| - 1])]
  }

  function ListEntries(section: Path, aliases: seq<Alias>): seq<Entry> {
    Flat(ListBlocks(section, aliases))
  }

  function SubEntries(section: Path, name: string): seq<Entry> {
    [BitEntry(section, "is_used", true), StringEntry(section, "name", name)]
  }

  /** The sections of the subscriptions, numbered from 1. */
  function SubsBlocks(section: Path, subs: seq<string>): (r: seq<seq<Entry>>)
    ensures |r| == |subs|
    ensures forall k {:trigger r[k]} :: 0 <= k < |r| ==>
      r[k] == SubEntries(section + [Pad(k + 1, NAME_WIDTH)], subs[k])
  {
    if subs == [] then []
    else SubsBlocks(section, subs[..|subs| - 1]) + [SubEntries(section + [Pad(|subs|, NAME_WIDTH)], subs[|subs| - 1])]
  }

  function SubsEntries(section: Path, subs: seq<string>): seq<Entry> {
    Flat(SubsBlocks(section, subs))
  }

  function HeaderEntries(section: Path, maxAliases: int, number: int): seq<Entry> {
    [NumberEntry(section, "max_aliases", INT, maxAliases), NumberEntry(section, "number_of_aliases", INT, number)]
  }

  /** What `alias_save` writes. */
  function AliasFile(section: Path, maxAliases: int, aliases: seq<Alias>, subs: seq<string>): seq<Entry> {
    HeaderEntries(section + ["header"], maxAliases, |aliases|) + ListEntries(section + ["list"], aliases)
    + SubsEntries(section + ["subs"], subs)
  }

  /** An alias that fits the buffers it is loaded into. */
  predicate Storable(a: Alias) {
    && |a.command| < ALIAS_COMMAND_SZ && |a.body.str| < ALIAS_STR_SZ && a.body.commandType <= SHRT_MAX
    && (a.body.comment.Some? ==> |a.body.comment.value| < ALIAS_COMMENT_SZ)
  }

  lemma CommandOrder()
    ensures StrLt("command", "command_type")
  {
    StrLtAt("command", "command_type", 7);
  }

  lemma TypeOrder()
    ensures StrLt("command_type", "comment_do")
  {
    StrLtAt("command_type", "comment_do", 4);
  }

  lemma CommentOrder()
    ensures StrLt("comment_do", "comment_str")
  {
    StrLtAt("comment_do", "comment_str", 8);
  }

  lemma SubCommandOrder()
    ensures StrLt("sub_command", "sub_command_only")
  {
    StrLtAt("sub_command", "sub_command_only", 11);
  }

  lemma AliasTags()
    ensures ValidTag("command") && ValidTag("command_type") && ValidTag("flags") && ValidTag("string")
    ensures StrLt("", "command") && StrLt("flags", "string")
  {
  }

  lemma CommentTags()
    ensures ValidTag("comment_do") && ValidTag("comment_str")
    ensures StrLt("comment_do", "flags") && StrLt("comment_str", "flags")
  {
  }

  lemma FirstTags()
    ensures ValidTag("clever_match") && ValidTag("disabled") && ValidTag("expand_match")
    ensures StrLt("", "clever_match") && StrLt("clever_match", "disabled") && StrLt("disabled", "expand_match")
  {
  }

  lemma MiddleTags()
    ensures ValidTag("hidden") && ValidTag("no_beg_space") && ValidTag("prived")
    ensures StrLt("expand_match", "hidden") && StrLt("hidden", "no_beg_space") && StrLt("no_beg_space", "prived")
  {
  }

  lemma LastTags()
    ensures ValidTag("public") && ValidTag("sub_command") && ValidTag("sub_command_only") && ValidTag("use_name")
    ensures StrLt("prived", "public") && StrLt("public", "sub_command") && StrLt("sub_command_only", "use_name")
  {
  }

  lemma HeaderTags()
    ensures ValidTag("max_aliases") && ValidTag("number_of_aliases")
    ensures StrLt("", "max_aliases") && StrLt("max_aliases", "number_of_aliases")
  {
  }

  lemma SubTags()
    ensures ValidTag("is_used") && ValidTag("name") && StrLt("", "is_used") && StrLt("is_used", "name")
  {
  }

  lemma ConcatTwo(base: seq<Entry>, a: Entry, b: Entry)
    ensures base + [a] + [b] == base + [a, b]
  {
  }

  lemma ConcatThree(base: seq<Entry>, a: Entry, b: Entry, c: Entry)
    ensures base + [a] + [b] + [c] == base + [a, b, c]
  {
  }

  lemma ConcatFour(base: seq<Entry>, a: Entry, b: Entry, c: Entry, d: Entry)
    ensures base + [a] + [b] + [c] + [d] == base + ([a, b] + [c, d])
  {
  }

  lemma ConcatParts(base: seq<Entry>, a: seq<Entry>, b: seq<Entry>, c: seq<Entry>, d: seq<Entry>)
    ensures base + a + b + c + d == base + (a + b + c + d)
  {
  }

  // ---------------------------------------------------------------- saving

  method SaveCommand(fs: FileIo, a: Alias)
    requires Saving(fs) && fs.Top() == "" && Storable(a)
    modifies fs`stream, fs`prev, fs`entries, fs`pos
    ensures Saving(fs) && fs.Top() == "command_type"
    ensures fs.entries == old(fs.entries) + CommandEntries(fs.prefix, a)
  {
    AliasTags();
    CommandOrder();
    ConcatTwo(fs.entries, StringEntry(fs.prefix, "command", a.command),
              NumberEntry(fs.prefix, "command_type", SHORT, a.body.commandType));
    PutString(fs, "command", a.command);
    PutNumber(fs, "command_type", SHORT, a.body.commandType);
  }

  method SaveComment(fs: FileIo, comment: Option<string>)
    requires Saving(fs) && fs.Top() == "command_type" && (comment.Some? ==> |comment.value| < ALIAS_COMMENT_SZ)
    modifies fs`stream, fs`prev, fs`entries, fs`pos
    ensures Saving(fs) && (fs.Top() == "comment_do" || fs.Top() == "comment_str")
    ensures fs.entries == old(fs.entries) + CommentEntries(fs.prefix, comment)
  {
    CommentTags();
    TypeOrder();
    CommentOrder();
    if comment.Some? {
      ConcatTwo(fs.entries, BitEntry(fs.prefix, "comment_do", true),
                StringEntry(fs.prefix, "comment_str", comment.value));
      PutBit(fs, "comment_do", true);
      PutString(fs, "comment_str", comment.value);
    } else {
      PutBit(fs, "comment_do", false);
    }
  }

  method SaveFirstFlags(fs: FileIo, f: Flags)
    requires Saving(fs) && fs.Top() == ""
    modifies fs`stream, fs`prev, fs`entries, fs`pos
    ensures Saving(fs) && fs.Top() == "expand_match"
    ensures fs.entries == old(fs.entries) + FirstFlags(fs.prefix, f)
  {
    FirstTags();
    ConcatThree(fs.entries, BitEntry(fs.prefix, "clever_match", f.cleverMatch),
                BitEntry(fs.prefix, "disabled", f.disabled), BitEntry(fs.prefix, "expand_match", f.expandMatch));
    PutBit(fs, "clever_match", f.cleverMatch);
    PutBit(fs, "disabled", f.disabled);
    PutBit(fs, "expand_match", f.expandMatch);
  }

  method SaveMiddleFlags(fs: FileIo, f: Flags)
    requires Saving(fs) && fs.Top() == "expand_match"
    modifies fs`stream, fs`prev, fs`entries, fs`pos
    ensures Saving(fs) && fs.Top() == "prived"
    ensures fs.entries == old(fs.entries) + MiddleFlags(fs.prefix, f)
  {
    MiddleTags();
    ConcatThree(fs.entries, BitEntry(fs.prefix, "hidden", f.hidden),
                BitEntry(fs.prefix, "no_beg_space", f.noBegSpace), BitEntry(fs.prefix, "prived", f.prived));
    PutBit(fs, "hidden", f.hidden);
    PutBit(fs, "no_beg_space", f.noBegSpace);
    PutBit(fs, "prived", f.prived);
  }

  method SaveLastFlags(fs: FileIo, f: Flags)
    requires Saving(fs) && fs.Top() == "prived"
    modifies fs`stream, fs`prev, fs`entries, fs`pos
    ensures Saving(fs) && fs.Top() == "use_name"
    ensures fs.entries == old(fs.entries) + LastFlags(fs.prefix, f)
  {
    LastTags();
    SubCommandOrder();
    ConcatFour(fs.entries, BitEntry(fs.prefix, "public", f.public),
               BitEntry(fs.prefix, "sub_command", f.inSubCommand),
               BitEntry(fs.prefix, "sub_command_only", f.inSubCommandOnly),
               BitEntry(fs.prefix, "use_name", f.useName));
    PutBit(fs, "public", f.public);
    PutBit(fs, "sub_command", f.inSubCommand);
    PutBit(fs, "sub_command_only", f.inSubCommandOnly);
    PutBit(fs, "use_name", f.useName);
  }

  method SaveFlags(fs: FileIo, f: Flags)
    requires Saving(fs) && StrLt(fs.Top(), "flags") && |fs.prefix| < MAX_PREFIX_TAGS
    modifies fs`stream, fs`prefix, fs`prev, fs`entries, fs`pos
    ensures Saving(fs) && fs.prefix == old(fs.prefix) && fs.Top() == "flags"
    ensures fs.entries == old(fs.entries) + FlagEntries(fs.prefix + ["flags"], f)
  {
    ghost var base: seq<Entry>, section := fs.entries, fs.prefix + ["flags"];
    fs.FileSectionBeg("flags");
    SaveFirstFlags(fs, f);
    SaveMiddleFlags(fs, f);
    SaveLastFlags(fs, f);
    ConcatBlock(base, FirstFlags(section, f), MiddleFlags(section, f));
    ConcatBlock(base, FirstFlags(section, f) + MiddleFlags(section, f), LastFlags(section, f));
    fs.FileSectionEnd("flags");
  }

  /** One alias, in a section of its own. */
  method SaveAlias(fs: FileIo, a: Alias)
    requires Saving(fs) && fs.Top() == "" && |fs.prefix| < MAX_PREFIX_TAGS && Storable(a)
    modifies fs`stream, fs`prefix, fs`prev, fs`entries, fs`pos
    ensures Saving(fs) && fs.prefix == old(fs.prefix)
    ensures fs.entries == old(fs.entries) + AliasEntries(fs.prefix, a)
  {
    ConcatParts(fs.entries, CommandEntries(fs.prefix, a), CommentEntries(fs.prefix, a.body.comment),
                FlagEntries(fs.prefix + ["flags"], a.body.flags), [StringEntry(fs.prefix, "string", a.body.str)]);
    SaveCommand(fs, a);
    SaveComment(fs, a.body.comment);
    CommentTags();
    SaveFlags(fs, a.body.flags);
    AliasTags();
    PutString(fs, "string", a.body.str);
  }

  method SaveNumbered(fs: FileIo, name: string, a: Alias)
    requires Saving(fs) && ValidTag(name) && StrLt(fs.Top(), name)
    requires |fs.prefix| + 1 < MAX_PREFIX_TAGS && Storable(a)
    modifies fs`stream, fs`prefix, fs`prev, fs`entries, fs`pos
    ensures Saving(fs) && fs.prefix == old(fs.prefix) && fs.Top() == name
    ensures fs.entries == old(fs.entries) + AliasEntries(fs.prefix + [name], a)
  {
    fs.FileSectionBeg(name);
    SaveAlias(fs, a);
    fs.FileSectionEnd(name);
  }

  lemma ListSnoc(section: Path, saved: seq<Alias>, a: Alias)
    ensures ListBlocks(section, saved + [a]) ==
      ListBlocks(section, saved) + [AliasEntries(section + [Pad(|saved| + 1, NAME_WIDTH)], a)]
  {
    assert (saved + [a])[..|saved|] == saved;
  }

  lemma SubsSnoc(section: Path, saved: seq<string>, name: string)
    ensures SubsBlocks(section, saved + [name]) ==
      SubsBlocks(section, saved) + [SubEntries(section + [Pad(|saved| + 1, NAME_WIDTH)], name)]
  {
    assert (saved + [name])[..|saved|] == saved;
  }

  lemma ListNext(base: seq<Entry>, section: Path, saved: seq<Alias>, a: Alias, block: seq<Entry>)
    requires block == AliasEntries(section + [Pad(|saved| + 1, NAME_WIDTH)], a)
    ensures base + ListEntries(section, saved) + block == base + ListEntries(section, saved + [a])
  {
    ListSnoc(section, saved, a);
    FlatSnoc(base, ListBlocks(section, saved), ListBlocks(section, saved + [a]), block);
  }

  lemma ListNth(base: seq<Entry>, section: Path, aliases: seq<Alias>, count: nat, block: seq<Entry>)
    requires 1 <= count <= |aliases| && block == AliasEntries(section + [Pad(count, NAME_WIDTH)], aliases[count - 1])
    ensures base + ListEntries(section, aliases[..count - 1]) + block == base + ListEntries(section, aliases[..count])
  {
    assert aliases[..count - 1] + [aliases[count - 1]] == aliases[..count];
    ListNext(base, section, aliases[..count - 1], aliases[count - 1], block);
  }

  lemma SubsNext(base: seq<Entry>, section: Path, saved: seq<string>, name: string, block: seq<Entry>)
    requires block == SubEntries(section + [Pad(|saved| + 1, NAME_WIDTH)], name)
    ensures base + SubsEntries(section, saved) + block == base + SubsEntries(section, saved + [name])
  {
    SubsSnoc(section, saved, name);
    FlatSnoc(base, SubsBlocks(section, saved), SubsBlocks(section, saved + [name]), block);
  }

  /** One alias more in the loop of `internal_alias_save`. */
  method SaveNth(fs: FileIo, a: Alias, count: nat, ghost base: seq<Entry>, ghost aliases: seq<Alias>, ghost k: nat)
    requires count == k + 1 <= |aliases| < Pow10(NAME_WIDTH) && a == aliases[k] && Storable(a)
    requires Saving(fs) && fs.Top() == LastName(k, NAME_WIDTH) && |fs.prefix| + 1 < MAX_PREFIX_TAGS
    requires fs.entries == base + ListEntries(fs.prefix, aliases[..k])
    modifies fs`stream, fs`prefix, fs`prev, fs`entries, fs`pos
    ensures Saving(fs) && fs.prefix == old(fs.prefix) && fs.Top() == LastName(count, NAME_WIDTH)
    ensures fs.entries == base + ListEntries(fs.prefix, aliases[..count])
  {
    var buffer := Pad(count, NAME_WIDTH);
    NextName(k, NAME_WIDTH);
    ghost var block := AliasEntries(fs.prefix + [buffer], a);
    ListNth(base, fs.prefix, aliases, count, block);
    SaveNumbered(fs, buffer, a);
  }

  /** The loop of `internal_alias_save`, along the list. */
  method SaveEach(fs: FileIo, head: Node?<Alias>, ghost nodes: seq<Node<Alias>>, ghost aliases: seq<Alias>)
    returns (count: nat)
    requires Saving(fs) && fs.Top() == "" && |fs.prefix| + 1 < MAX_PREFIX_TAGS
    requires Holds(nodes, aliases) && head == At(nodes, 0) && Forward(nodes) && |aliases| < Pow10(NAME_WIDTH)
    requires forall i :: 0 <= i < |aliases| ==> Storable(aliases[i])
    modifies fs`stream, fs`prefix, fs`prev, fs`entries, fs`pos
    ensures Saving(fs) && fs.prefix == old(fs.prefix) && count == |aliases|
    ensures fs.entries == old(fs.entries) + ListEntries(fs.prefix, aliases)
  {
    var scan := head;
    ghost var base: seq<Entry> := fs.entries;
    count := 0;
    assert base + [] == base;
    while scan != null
      invariant count <= |aliases| && scan == At(nodes, count)
      invariant Saving(fs) && fs.prefix == old(fs.prefix) && fs.Top() == LastName(count, NAME_WIDTH)
      invariant fs.entries == base + ListEntries(fs.prefix, aliases[..count])
      decreases |aliases| - count
    {
      SaveNth(fs, scan.value, count + 1, base, aliases, count);
      count := count + 1;
      scan := scan.next;
    }
    assert aliases[..count] == aliases;
  }

  method SaveList(fs: FileIo, list: AliasList) returns (count: nat)
    requires Saving(fs) && StrLt(fs.Top(), "list") && |fs.prefix| + 2 < MAX_PREFIX_TAGS
    requires Holds(list.nodes, list.entries) && list.Linked() && |list.entries| < Pow10(NAME_WIDTH)
    requires forall i :: 0 <= i < |list.entries| ==> Storable(list.entries[i])
    modifies fs`stream, fs`prefix, fs`prev, fs`entries, fs`pos
    ensures Saving(fs) && fs.prefix == old(fs.prefix) && fs.Top() == "list" && count == |list.entries|
    ensures fs.entries == old(fs.entries) + ListEntries(fs.prefix + ["list"], list.entries)
  {
    fs.FileSectionBeg("list");
    count := SaveEach(fs, list.head, list.nodes, list.entries);
    fs.FileSectionEnd("list");
  }

  method SaveHeader(fs: FileIo, maxAliases: int, number: int)
    requires Saving(fs) && StrLt(fs.Top(), "header") && |fs.prefix| < MAX_PREFIX_TAGS
    requires INT_MIN <= maxAliases <= INT_MAX && INT_MIN <= number <= INT_MAX
    modifies fs`stream, fs`prefix, fs`prev, fs`entries, fs`pos
    ensures Saving(fs) && fs.prefix == old(fs.prefix) && fs.Top() == "header"
    ensures fs.entries == old(fs.entries) + HeaderEntries(fs.prefix + ["header"], maxAliases, number)
  {
    ghost var section := fs.prefix + ["header"];
    ConcatTwo(fs.entries, NumberEntry(section, "max_aliases", INT, maxAliases),
              NumberEntry(section, "number_of_aliases", INT, number));
    HeaderTags();
    fs.FileSectionBeg("header");
    PutNumber(fs, "max_aliases", INT, maxAliases);
    PutNumber(fs, "number_of_aliases", INT, number);
    fs.FileSectionEnd("header");
  }

  method SaveSub(fs: FileIo, name: string)
    requires Saving(fs) && fs.Top() == "" && |name| < ALIAS_LIB_NAME_SZ
    modifies fs`stream, fs`prev, fs`entries, fs`pos
    ensures Saving(fs)
    ensures fs.entries == old(fs.entries) + SubEntries(fs.prefix, name)
  {
    SubTags();
    ConcatTwo(fs.entries, BitEntry(fs.prefix, "is_used", true), StringEntry(fs.prefix, "name", name));
    PutBit(fs, "is_used", true);
    PutString(fs, "name", name);
  }

  method SaveNextSub(fs: FileIo, name: string, count: nat, ghost base: seq<Entry>, ghost saved: seq<string>)
    requires Saving(fs) && fs.Top() == LastName(|saved|, NAME_WIDTH) && count == |saved| + 1 < Pow10(NAME_WIDTH)
    requires |fs.prefix| < MAX_PREFIX_TAGS && |name| < ALIAS_LIB_NAME_SZ
    requires fs.entries == base + SubsEntries(fs.prefix, saved)
    modifies fs`stream, fs`prefix, fs`prev, fs`entries, fs`pos
    ensures Saving(fs) && fs.prefix == old(fs.prefix) && fs.Top() == LastName(count, NAME_WIDTH)
    ensures fs.entries == base + SubsEntries(fs.prefix, saved + [name])
  {
    var buffer := Pad(count, NAME_WIDTH);
    NextName(|saved|, NAME_WIDTH);
    ghost var block := SubEntries(fs.prefix + [buffer], name);
    SubsNext(base, fs.prefix, saved, name, block);
    fs.FileSectionBeg(buffer);
    SaveSub(fs, name);
    fs.FileSectionEnd(buffer);
  }

  /** Of the subscriptions, only so many are saved: the last of a full array is not. */
  function Saved(subs: seq<string>): (r: seq<string>)
    ensures |r| < ALIAS_LIB_LD_SO_SZ
  {
    if |subs| >= ALIAS_LIB_LD_SO_SZ then subs[..ALIAS_LIB_LD_SO_SZ - 1] else subs
  }

  /** Where the reader looks for one more. */
  function EndPath(section: Path, count: nat): Path {
    section + [Pad(count + 1, NAME_WIDTH)] + ["is_used"]
  }

  lemma BeyondLast(entries: File, section: Path, count: nat)
    requires AllDone(entries, |entries|, section + [LastName(count, NAME_WIDTH)]) && count + 1 < Pow10(NAME_WIDTH)
    ensures AllBelow(entries, |entries|, EndPath(section, count))
  {
    NextName(count, NAME_WIDTH);
    EnterSection(entries, |entries|, section, LastName(count, NAME_WIDTH), Pad(count + 1, NAME_WIDTH));
    EnterSection(entries, |entries|, section + [Pad(count + 1, NAME_WIDTH)], "", "is_used");
  }

  /** The loop of `internal_alias_save_subscriptions`. */
  method SaveEachSub(fs: FileIo, subs: seq<string>)
    requires Saving(fs) && fs.Top() == "" && |fs.prefix| < MAX_PREFIX_TAGS
    requires forall i :: 0 <= i < |subs| ==> |subs[i]| < ALIAS_LIB_NAME_SZ
    modifies fs`stream, fs`prefix, fs`prev, fs`entries, fs`pos
    ensures Saving(fs) && fs.prefix == old(fs.prefix)
    ensures fs.entries == old(fs.entries) + SubsEntries(fs.prefix, Saved(subs))
    ensures AllBelow(fs.entries, |fs.entries|, EndPath(fs.prefix, |Saved(subs)|))
  {
    ghost var base: seq<Entry> := fs.entries;
    var count := 0;
    assert base + [] == base && Pow10(NAME_WIDTH) == 10000;
    while count < ALIAS_LIB_LD_SO_SZ - 1 && count < |subs|
      invariant count <= |subs| && count <= ALIAS_LIB_LD_SO_SZ - 1
      invariant Saving(fs) && fs.prefix == old(fs.prefix) && fs.Top() == LastName(count, NAME_WIDTH)
      invariant fs.entries == base + SubsEntries(fs.prefix, subs[..count])
    {
      assert subs[..count] + [subs[count]] == subs[..count + 1];
      count := count + 1;
      SaveNextSub(fs, subs[count - 1], count, base, subs[..count - 1]);
    }
    assert subs[..count] == Saved(subs);
    BeyondLast(fs.entries, fs.prefix, count);
  }

  method SaveSubs(fs: FileIo, subs: seq<string>)
    requires Saving(fs) && StrLt(fs.Top(), "subs") && |fs.prefix| + 1 < MAX_PREFIX_TAGS
    requires forall i :: 0 <= i < |subs| ==> |subs[i]| < ALIAS_LIB_NAME_SZ
    modifies fs`stream, fs`prefix, fs`prev, fs`entries, fs`pos
    ensures Saving(fs) && fs.prefix == old(fs.prefix) && fs.Top() == "subs"
    ensures fs.entries == old(fs.entries) + SubsEntries(fs.prefix + ["subs"], Saved(subs))
    ensures AllBelow(fs.entries, |fs.entries|, EndPath(fs.prefix + ["subs"], |Saved(subs)|))
  {
    fs.FileSectionBeg("subs");
    SaveEachSub(fs, subs);
    fs.FileSectionEnd("subs");
  }

  lemma ConcatFile(base: seq<Entry>, a: seq<Entry>, b: seq<Entry>, c: seq<Entry>)
    ensures base + a + b + c == base + (a + b + c)
  {
  }

  /** `alias_save` */
  method AliasSave(fs: FileIo, maxAliases: int, list: AliasList, subs: seq<string>)
    requires Saving(fs) && StrLt(fs.Top(), "header") && |fs.prefix| + 2 < MAX_PREFIX_TAGS
    requires INT_MIN <= maxAliases <= INT_MAX && list.Valid() && |list.entries| < Pow10(NAME_WIDTH)
    requires forall i :: 0 <= i < |list.entries| ==> Storable(list.entries[i])
    requires forall i :: 0 <= i < |subs| ==> |subs[i]| < ALIAS_LIB_NAME_SZ
    modifies fs`stream, fs`prefix, fs`prev, fs`entries, fs`pos
    ensures Saving(fs) && fs.prefix == old(fs.prefix) && fs.Top() == "subs"
    ensures fs.entries == old(fs.entries) + AliasFile(fs.prefix, maxAliases, list.entries, Saved(subs))
    ensures AllBelow(fs.entries, |fs.entries|, EndPath(fs.prefix + ["subs"], |Saved(subs)|))
  {
    assert Pow10(NAME_WIDTH) == 10000;
    ConcatFile(fs.entries, HeaderEntries(fs.prefix + ["header"], maxAliases, |list.entries|),
               ListEntries(fs.prefix + ["list"], list.entries), SubsEntries(fs.prefix + ["subs"], Saved(subs)));
    SaveAliases(fs, maxAliases, list);
    SaveSubs(fs, subs);
  }

  /** The limit and the aliases. */
  method SaveAliases(fs: FileIo, maxAliases: int, list: AliasList)
    requires Saving(fs) && StrLt(fs.Top(), "header") && |fs.prefix| + 2 < MAX_PREFIX_TAGS
    requires INT_MIN <= maxAliases <= INT_MAX && list.number == |list.entries| < Pow10(NAME_WIDTH)
    requires Holds(list.nodes, list.entries) && list.Linked()
    requires forall i :: 0 <= i < |list.entries| ==> Storable(list.entries[i])
    modifies fs`stream, fs`prefix, fs`prev, fs`entries, fs`pos
    ensures Saving(fs) && fs.prefix == old(fs.prefix) && fs.Top() == "list"
    ensures fs.entries == old(fs.entries) + HeaderEntries(fs.prefix + ["header"], maxAliases, |list.entries|)
                          + ListEntries(fs.prefix + ["list"], list.entries)
  {
    assert Pow10(NAME_WIDTH) == 10000;
    SaveHeader(fs, maxAliases, list.number);
    var count := SaveList(fs, list);
    assert list.number == count;
  }

  // ---------------------------------------------------------------- loading

  method LoadCommand(fs: FileIo, ghost a: Alias, ghost i: nat) returns (command: string)
    requires Loading(fs) && fs.Top() == "" && Storable(a) && i < |fs.entries|
    requires fs.entries[i] == StringEntry(fs.prefix, "command", a.command)
    modifies fs`prev, fs`foundOnDisk, fs`stream, fs`eof, fs`pos, fs`diskTag, fs`diskType, fs`diskUsed
    ensures Loading(fs) && fs.Top() == "command" && command == a.command
  {
    AliasTags();
    command := GetString(fs, "command", ALIAS_COMMAND_SZ, a.command, i);
  }

  method LoadType(fs: FileIo, ghost a: Alias, ghost i: nat) returns (commandType: int)
    requires Loading(fs) && fs.Top() == "command" && Storable(a) && i < |fs.entries|
    requires fs.entries[i] == NumberEntry(fs.prefix, "command_type", SHORT, a.body.commandType)
    modifies fs`prev, fs`foundOnDisk, fs`stream, fs`eof, fs`pos, fs`diskTag, fs`diskType, fs`diskUsed
    ensures Loading(fs) && fs.Top() == "command_type" && commandType == a.body.commandType
  {
    AliasTags();
    CommandOrder();
    commandType := GetNumber(fs, "command_type", SHORT, SHRT_MIN, SHRT_MAX, a.body.commandType, i);
  }

  method LoadComment(fs: FileIo, ghost comment: Option<string>, ghost i: nat) returns (r: Option<string>)
    requires Loading(fs) && fs.Top() == "command_type" && i < |fs.entries|
    requires fs.entries[i] == BitEntry(fs.prefix, "comment_do", comment.Some?)
    requires comment.Some? ==>
      && |comment.value| < ALIAS_COMMENT_SZ && i + 1 < |fs.entries|
      && fs.entries[i + 1] == StringEntry(fs.prefix, "comment_str", comment.value)
    modifies fs`prev, fs`foundOnDisk, fs`stream, fs`eof, fs`pos, fs`diskTag, fs`diskType, fs`diskUsed
    ensures Loading(fs) && (fs.Top() == "comment_do" || fs.Top() == "comment_str") && r == comment
  {
    CommentTags();
    TypeOrder();
    CommentOrder();
    var commentDo := GetBit(fs, "comment_do", comment.Some?, i);
    r := None;
    if commentDo {
      var str := GetMalloc(fs, "comment_str", comment.value, i + 1);
      assert |str| < ALIAS_COMMENT_SZ;
      r := Some(str);
    }
  }

  lemma FirstAt(entries: seq<Entry>, i: nat, section: Path, f: Flags)
    requires Block(entries, i, FirstFlags(section, f))
    ensures i + 2 < |entries| && entries[i] == BitEntry(section, "clever_match", f.cleverMatch)
    ensures entries[i + 1] == BitEntry(section, "disabled", f.disabled)
    ensures entries[i + 2] == BitEntry(section, "expand_match", f.expandMatch)
  {
    BlockAt(entries, i, FirstFlags(section, f), 0);
    BlockAt(entries, i, FirstFlags(section, f), 1);
    BlockAt(entries, i, FirstFlags(section, f), 2);
  }

  method LoadFirstFlags(fs: FileIo, ghost f: Flags, ghost i: nat) returns (c: bool, d: bool, e: bool)
    requires Loading(fs) && fs.Top() == "" && i + 2 < |fs.entries|
    requires fs.entries[i] == BitEntry(fs.prefix, "clever_match", f.cleverMatch)
    requires fs.entries[i + 1] == BitEntry(fs.prefix, "disabled", f.disabled)
    requires fs.entries[i + 2] == BitEntry(fs.prefix, "expand_match", f.expandMatch)
    modifies fs`prev, fs`foundOnDisk, fs`stream, fs`eof, fs`pos, fs`diskTag, fs`diskType, fs`diskUsed
    ensures Loading(fs) && fs.Top() == "expand_match"
    ensures c == f.cleverMatch && d == f.disabled && e == f.expandMatch
  {
    FirstTags();
    c := GetBit(fs, "clever_match", f.cleverMatch, i);
    d := GetBit(fs, "disabled", f.disabled, i + 1);
    e := GetBit(fs, "expand_match", f.expandMatch, i + 2);
  }

  lemma MiddleAt(entries: seq<Entry>, i: nat, section: Path, f: Flags)
    requires Block(entries, i, MiddleFlags(section, f))
    ensures i + 2 < |entries| && entries[i] == BitEntry(section, "hidden", f.hidden)
    ensures entries[i + 1] == BitEntry(section, "no_beg_space", f.noBegSpace)
    ensures entries[i + 2] == BitEntry(section, "prived", f.prived)
  {
    BlockAt(entries, i, MiddleFlags(section, f), 0);
    BlockAt(entries, i, MiddleFlags(section, f), 1);
    BlockAt(entries, i, MiddleFlags(section, f), 2);
  }

  method LoadMiddleFlags(fs: FileIo, ghost f: Flags, ghost i: nat) returns (h: bool, n: bool, p: bool)
    requires Loading(fs) && fs.Top() == "expand_match" && i + 2 < |fs.entries|
    requires fs.entries[i] == BitEntry(fs.prefix, "hidden", f.hidden)
    requires fs.entries[i + 1] == BitEntry(fs.prefix, "no_beg_space", f.noBegSpace)
    requires fs.entries[i + 2] == BitEntry(fs.prefix, "prived", f.prived)
    modifies fs`prev, fs`foundOnDisk, fs`stream, fs`eof, fs`pos, fs`diskTag, fs`diskType, fs`diskUsed
    ensures Loading(fs) && fs.Top() == "prived"
    ensures h == f.hidden && n == f.noBegSpace && p == f.prived
  {
    MiddleTags();
    h := GetBit(fs, "hidden", f.hidden, i);
    n := GetBit(fs, "no_beg_space", f.noBegSpace, i + 1);
    p := GetBit(fs, "prived", f.prived, i + 2);
  }

  method LoadPublicFlags(fs: FileIo, ghost f: Flags, ghost i: nat) returns (p: bool, s: bool)
    requires Loading(fs) && fs.Top() == "prived" && Block(fs.entries, i, PublicFlags(fs.prefix, f))
    modifies fs`prev, fs`foundOnDisk, fs`stream, fs`eof, fs`pos, fs`diskTag, fs`diskType, fs`diskUsed
    ensures Loading(fs) && fs.Top() == "sub_command" && p == f.public && s == f.inSubCommand
  {
    LastTags();
    BlockAt(fs.entries, i, PublicFlags(fs.prefix, f), 0);
    BlockAt(fs.entries, i, PublicFlags(fs.prefix, f), 1);
    p := GetBit(fs, "public", f.public, i);
    s := GetBit(fs, "sub_command", f.inSubCommand, i + 1);
  }

  method LoadLastFlags(fs: FileIo, ghost f: Flags, ghost i: nat) returns (o: bool, u: bool)
    requires Loading(fs) && fs.Top() == "sub_command" && i + 1 < |fs.entries|
    requires fs.entries[i] == BitEntry(fs.prefix, "sub_command_only", f.inSubCommandOnly)
    requires fs.entries[i + 1] == BitEntry(fs.prefix, "use_name", f.useName)
    modifies fs`prev, fs`foundOnDisk, fs`stream, fs`eof, fs`pos, fs`diskTag, fs`diskType, fs`diskUsed
    ensures Loading(fs) && o == f.inSubCommandOnly && u == f.useName
  {
    LastTags();
    SubCommandOrder();
    o := GetBit(fs, "sub_command_only", f.inSubCommandOnly, i);
    u := GetBit(fs, "use_name", f.useName, i + 1);
  }

  lemma FlagBlocks(entries: seq<Entry>, i: nat, section: Path, f: Flags)
    requires Block(entries, i, FlagEntries(section, f))
    ensures Block(entries, i, FirstFlags(section, f)) && Block(entries, i + 3, MiddleFlags(section, f))
    ensures Block(entries, i + 6, PublicFlags(section, f)) && i + 9 < |entries|
    ensures entries[i + 8] == BitEntry(section, "sub_command_only", f.inSubCommandOnly)
    ensures entries[i + 9] == BitEntry(section, "use_name", f.useName)
  {
    BlockPart(entries, i, FirstFlags(section, f) + MiddleFlags(section, f), LastFlags(section, f));
    BlockAt(entries, i + 6, LastFlags(section, f), 2);
    BlockAt(entries, i + 6, LastFlags(section, f), 3);
    BlockPart(entries, i, FirstFlags(section, f), MiddleFlags(section, f));
    BlockPart(entries, i + 6, PublicFlags(section, f), LastFlags(section, f)[2..]);
  }

  method LoadEachFlag(fs: FileIo, ghost f: Flags, ghost i: nat) returns (r: Flags)
    requires Loading(fs) && fs.Top() == "" && Block(fs.entries, i, FlagEntries(fs.prefix, f))
    modifies fs`prev, fs`foundOnDisk, fs`stream, fs`eof, fs`pos, fs`diskTag, fs`diskType, fs`diskUsed
    ensures Loading(fs) && r == f
  {
    FlagBlocks(fs.entries, i, fs.prefix, f);
    FirstAt(fs.entries, i, fs.prefix, f);
    MiddleAt(fs.entries, i + 3, fs.prefix, f);
    var c, d, e := LoadFirstFlags(fs, f, i);
    var h, n, p := LoadMiddleFlags(fs, f, i + 3);
    var public, s := LoadPublicFlags(fs, f, i + 6);
    var o, u := LoadLastFlags(fs, f, i + 8);
    r := Flags(n, d, c, e, h, u, s, o, public, p);
  }

  method LoadFlags(fs: FileIo, ghost f: Flags, ghost i: nat) returns (r: Flags)
    requires Loading(fs) && StrLt(fs.Top(), "flags") && |fs.prefix| < MAX_PREFIX_TAGS
    requires Block(fs.entries, i, FlagEntries(fs.prefix + ["flags"], f))
    modifies fs`prefix, fs`prev, fs`foundOnDisk, fs`stream, fs`eof, fs`pos, fs`diskTag, fs`diskType, fs`diskUsed
    ensures Loading(fs) && fs.prefix == old(fs.prefix) && fs.Top() == "flags" && r == f
  {
    fs.FileSectionBeg("flags");
    r := LoadEachFlag(fs, f, i);
    fs.FileSectionEnd("flags");
  }

  /** Where the parts of an alias stand, whose flags are at index j. */
  predicate AliasAt(entries: seq<Entry>, i: nat, j: nat, section: Path, a: Alias) {
    && i + 3 <= j && j + 10 < |entries|
    && entries[i] == StringEntry(section, "command", a.command)
    && entries[i + 1] == NumberEntry(section, "command_type", SHORT, a.body.commandType)
    && entries[i + 2] == BitEntry(section, "comment_do", a.body.comment.Some?)
    && (a.body.comment.Some? ==> entries[i + 3] == StringEntry(section, "comment_str", a.body.comment.value))
    && Block(entries, j, FlagEntries(section + ["flags"], a.body.flags))
    && entries[j + 10] == StringEntry(section, "string", a.body.str)
  }

  lemma AliasBlocks(entries: seq<Entry>, i: nat, section: Path, a: Alias) returns (j: nat)
    requires Block(entries, i, AliasEntries(section, a))
    ensures AliasAt(entries, i, j, section, a)
  {
    var n := |CommentEntries(section, a.body.comment)|;
    j := i + n + 2;
    var c, d := CommandEntries(section, a), CommentEntries(section, a.body.comment);
    var f, s := FlagEntries(section + ["flags"], a.body.flags), [StringEntry(section, "string", a.body.str)];
    BlockPart(entries, i, c + d + f, s);
    BlockPart(entries, i, c + d, f);
    BlockPart(entries, i, c, d);
    BlockAt(entries, i, c, 0);
    BlockAt(entries, i, c, 1);
    BlockAt(entries, i + 2, d, 0);
    BlockAt(entries, i + 2, d, n - 1);
    BlockAt(entries, j + 10, s, 0);
  }

  method LoadTail(fs: FileIo, ghost body: Body, ghost i: nat) returns (flags: Flags, str: string)
    requires Loading(fs) && StrLt(fs.Top(), "flags") && |fs.prefix| < MAX_PREFIX_TAGS && |body.str| < ALIAS_STR_SZ
    requires Block(fs.entries, i, FlagEntries(fs.prefix + ["flags"], body.flags)) && i + 10 < |fs.entries|
    requires fs.entries[i + 10] == StringEntry(fs.prefix, "string", body.str)
    modifies fs`prefix, fs`prev, fs`foundOnDisk, fs`stream, fs`eof, fs`pos, fs`diskTag, fs`diskType, fs`diskUsed
    ensures Loading(fs) && fs.prefix == old(fs.prefix) && flags == body.flags && str == body.str
  {
    AliasTags();
    flags := LoadFlags(fs, body.flags, i);
    str := GetString(fs, "string", ALIAS_STR_SZ, body.str, i + 10);
  }

  method LoadHead(fs: FileIo, ghost a: Alias, ghost i: nat)
    returns (command: string, commandType: int, comment: Option<string>)
    requires Loading(fs) && fs.Top() == "" && Storable(a) && i + 2 < |fs.entries|
    requires fs.entries[i] == StringEntry(fs.prefix, "command", a.command)
    requires fs.entries[i + 1] == NumberEntry(fs.prefix, "command_type", SHORT, a.body.commandType)
    requires fs.entries[i + 2] == BitEntry(fs.prefix, "comment_do", a.body.comment.Some?)
    requires a.body.comment.Some? ==>
      i + 3 < |fs.entries| && fs.entries[i + 3] == StringEntry(fs.prefix, "comment_str", a.body.comment.value)
    modifies fs`prev, fs`foundOnDisk, fs`stream, fs`eof, fs`pos, fs`diskTag, fs`diskType, fs`diskUsed
    ensures Loading(fs) && StrLt(fs.Top(), "flags")
    ensures command == a.command && commandType == a.body.commandType && comment == a.body.comment
  {
    CommentTags();
    command := LoadCommand(fs, a, i);
    commandType := LoadType(fs, a, i + 1);
    comment := LoadComment(fs, a.body.comment, i + 2);
  }

  method LoadParts(fs: FileIo, ghost a: Alias, ghost i: nat, ghost j: nat) returns (command: string, body: Body)
    requires Loading(fs) && fs.Top() == "" && |fs.prefix| < MAX_PREFIX_TAGS && Storable(a)
    requires AliasAt(fs.entries, i, j, fs.prefix, a)
    modifies fs`prefix, fs`prev, fs`foundOnDisk, fs`stream, fs`eof, fs`pos, fs`diskTag, fs`diskType, fs`diskUsed
    ensures Loading(fs) && fs.prefix == old(fs.prefix) && command == a.command && body == a.body
  {
    var commandType, comment, flags, str;
    command, commandType, comment := LoadHead(fs, a, i);
    flags, str := LoadTail(fs, a.body, j);
    body := NewBody(str).(commandType := commandType, comment := comment, flags := flags);
  }

  /** One alias, as it was saved. */
  method LoadAlias(fs: FileIo, name: string, ghost a: Alias, ghost i: nat, ghost j: nat)
    returns (command: string, body: Body)
    requires Loading(fs) && ValidTag(name) && StrLt(fs.Top(), name) && |fs.prefix| + 1 < MAX_PREFIX_TAGS
    requires AliasAt(fs.entries, i, j, fs.prefix + [name], a) && Storable(a)
    modifies fs`prefix, fs`prev, fs`foundOnDisk, fs`stream, fs`eof, fs`pos, fs`diskTag, fs`diskType, fs`diskUsed
    ensures Loading(fs) && fs.prefix == old(fs.prefix) && fs.Top() == name
    ensures command == a.command && body == a.body
  {
    command, body := LoadOpenAlias(fs, name, a, i, j);
    fs.FileSectionEnd(name);
  }

  /** The section up to its end. */
  method LoadOpenAlias(fs: FileIo, name: string, ghost a: Alias, ghost i: nat, ghost j: nat)
    returns (command: string, body: Body)
    requires Loading(fs) && ValidTag(name) && StrLt(fs.Top(), name) && |fs.prefix| + 1 < MAX_PREFIX_TAGS
    requires AliasAt(fs.entries, i, j, fs.prefix + [name], a) && Storable(a)
    modifies fs`prefix, fs`prev, fs`foundOnDisk, fs`stream, fs`eof, fs`pos, fs`diskTag, fs`diskType, fs`diskUsed
    ensures Loading(fs) && fs.prefix == old(fs.prefix) + [name] && command == a.command && body == a.body
  {
    fs.FileSectionBeg(name);
    command, body := LoadParts(fs, a, i, j);
  }

  /** Each alias of a sorted list is new to those before it. */
  lemma NextIsNew(aliases: seq<Alias>, k: nat)
    requires Ascending(aliases) && k < |aliases|
    ensures aliases[k].command !in Table(aliases[..k])
    ensures Table(aliases[..k + 1]) == Table(aliases[..k])[aliases[k].command := aliases[k].body]
  {
    var before := aliases[..k];
    forall j | 0 <= j < k
      ensures before[j].command != aliases[k].command
    {
      AscendingAt(aliases, j, k);
    }
    TableMisses(before, aliases[k].command);
    TableInsert(before, k, aliases[k]);
    LastInserted(before, aliases[k]);
    assert before + [aliases[k]] == aliases[..k + 1];
  }

  lemma LastInserted(before: seq<Alias>, a: Alias)
    ensures before[..|before|] + [a] + before[|before|..] == before + [a]
  {
  }

  /** Where in the file each of the aliases starts. */
  predicate Starts(entries: seq<Entry>, section: Path, aliases: seq<Alias>, starts: seq<nat>) {
    |starts| == |aliases| && forall k {:trigger starts[k]} :: 0 <= k < |aliases| ==>
      Storable(aliases[k]) && Block(entries, starts[k], AliasEntries(section + [Pad(k + 1, NAME_WIDTH)], aliases[k]))
  }

  lemma ListStarts(entries: seq<Entry>, i: nat, section: Path, aliases: seq<Alias>) returns (starts: seq<nat>)
    requires Block(entries, i, ListEntries(section, aliases))
    requires forall k :: 0 <= k < |aliases| ==> Storable(aliases[k])
    ensures Starts(entries, section, aliases, starts)
  {
    var blocks := ListBlocks(section, aliases);
    starts := FlatStarts(entries, i, blocks);
    assert forall k {:trigger starts[k]} :: 0 <= k < |aliases| ==> Block(entries, starts[k], blocks[k]);
  }

  /** The next alias of the file. */
  method LoadNth(fs: FileIo, count: nat, ghost aliases: seq<Alias>, ghost starts: seq<nat>)
    returns (command: string, body: Body)
    requires Loading(fs) && fs.Top() == LastName(count, NAME_WIDTH) && |fs.prefix| + 1 < MAX_PREFIX_TAGS
    requires Starts(fs.entries, fs.prefix, aliases, starts) && count < |aliases| < Pow10(NAME_WIDTH)
    modifies fs`prefix, fs`prev, fs`foundOnDisk, fs`stream, fs`eof, fs`pos, fs`diskTag, fs`diskType, fs`diskUsed
    ensures Loading(fs) && fs.prefix == old(fs.prefix) && fs.Top() == LastName(count + 1, NAME_WIDTH)
    ensures command == aliases[count].command && body == aliases[count].body
  {
    NextName(count, NAME_WIDTH);
    var name := Pad(count + 1, NAME_WIDTH);
    ghost var j := AliasBlocks(fs.entries, starts[count], fs.prefix + [name], aliases[count]);
    command, body := LoadAlias(fs, name, aliases[count], starts[count], j);
  }

  /** `alias_new_insert` of an alias that was loaded: it is new, so it is not refused. */
  method InsertLoaded(list: AliasList, command: string, body: Body, ghost aliases: seq<Alias>, ghost count: nat)
    requires list.Kept() && count < |aliases| && Alias(command, body) == aliases[count] && Storable(aliases[count])
    requires Ascending(aliases) && Table(list.entries) == Table(aliases[..count])
    modifies list`head, list`nodes, list`entries, list`repr, list.repr`next, list.repr`prev
    ensures list.Kept() && fresh(list.repr - old(list.repr))
    ensures Table(list.entries) == Table(aliases[..count + 1])
  {
    NextIsNew(aliases, count);
    var ok := list.NewInsert(command, body);
    assert ok;
  }

  /** One round of the loop of `internal_alias_load`. */
  method LoadNext(fs: FileIo, count: nat, list: AliasList, ghost aliases: seq<Alias>, ghost starts: seq<nat>)
    requires Loading(fs) && fs.Top() == LastName(count, NAME_WIDTH) && |fs.prefix| + 1 < MAX_PREFIX_TAGS
    requires Starts(fs.entries, fs.prefix, aliases, starts) && count < |aliases| < Pow10(NAME_WIDTH)
    requires Ascending(aliases) && list.Kept() && Table(list.entries) == Table(aliases[..count])
    modifies fs`prefix, fs`prev, fs`foundOnDisk, fs`stream, fs`eof, fs`pos, fs`diskTag, fs`diskType, fs`diskUsed
    modifies list`head, list`nodes, list`entries, list`repr, list.repr`next, list.repr`prev
    ensures Loading(fs) && fs.prefix == old(fs.prefix) && fs.Top() == LastName(count + 1, NAME_WIDTH)
    ensures list.Kept() && fresh(list.repr - old(list.repr)) && Table(list.entries) == Table(aliases[..count + 1])
  {
    assert starts[count] >= 0;
    var command, body := LoadNth(fs, count, aliases, starts);
    InsertLoaded(list, command, body, aliases, count);
  }

  /** The loop of `internal_alias_load`. */
  method LoadEach(fs: FileIo, numberOfAliases: nat, list: AliasList, ghost aliases: seq<Alias>, ghost starts: seq<nat>)
    requires Loading(fs) && fs.Top() == "" && |fs.prefix| + 1 < MAX_PREFIX_TAGS
    requires Starts(fs.entries, fs.prefix, aliases, starts) && numberOfAliases == |aliases| < Pow10(NAME_WIDTH)
    requires Ascending(aliases) && list.Kept() && list.entries == []
    modifies fs`prefix, fs`prev, fs`foundOnDisk, fs`stream, fs`eof, fs`pos, fs`diskTag, fs`diskType, fs`diskUsed
    modifies list`head, list`nodes, list`entries, list`repr, list.repr`next, list.repr`prev
    ensures Loading(fs) && fs.prefix == old(fs.prefix)
    ensures list.Kept() && fresh(list.repr - old(list.repr)) && Table(list.entries) == Table(aliases)
  {
    var count := 0;
    while count < numberOfAliases
      invariant count <= numberOfAliases && Loading(fs) && fs.prefix == old(fs.prefix)
      invariant fs.Top() == LastName(count, NAME_WIDTH)
      invariant list.Kept() && fresh(list.repr - old(list.repr)) && Table(list.entries) == Table(aliases[..count])
    {
      LoadNext(fs, count, list, aliases, starts);
      count := count + 1;
    }
    assert aliases[..count] == aliases;
  }

  method LoadListSection(fs: FileIo, numberOfAliases: nat, list: AliasList, ghost aliases: seq<Alias>,
                         ghost starts: seq<nat>)
    requires Loading(fs) && StrLt(fs.Top(), "list") && |fs.prefix| + 2 < MAX_PREFIX_TAGS
    requires Starts(fs.entries, fs.prefix + ["list"], aliases, starts)
    requires numberOfAliases == |aliases| < Pow10(NAME_WIDTH)
    requires Ascending(aliases) && list.Kept() && list.entries == []
    modifies fs`prefix, fs`prev, fs`foundOnDisk, fs`stream, fs`eof, fs`pos, fs`diskTag, fs`diskType, fs`diskUsed
    modifies list`head, list`nodes, list`entries, list`repr, list.repr`next, list.repr`prev
    ensures Loading(fs) && fs.prefix == old(fs.prefix) && fs.Top() == "list"
    ensures list.Kept() && fresh(list.repr - old(list.repr)) && Table(list.entries) == Table(aliases)
  {
    LoadOpenSection(fs, numberOfAliases, list, aliases, starts);
    fs.FileSectionEnd("list");
  }

  /** The section up to its end. */
  method LoadOpenSection(fs: FileIo, numberOfAliases: nat, list: AliasList, ghost aliases: seq<Alias>,
                         ghost starts: seq<nat>)
    requires Loading(fs) && StrLt(fs.Top(), "list") && |fs.prefix| + 2 < MAX_PREFIX_TAGS
    requires Starts(fs.entries, fs.prefix + ["list"], aliases, starts)
    requires numberOfAliases == |aliases| < Pow10(NAME_WIDTH)
    requires Ascending(aliases) && list.Kept() && list.entries == []
    modifies fs`prefix, fs`prev, fs`foundOnDisk, fs`stream, fs`eof, fs`pos, fs`diskTag, fs`diskType, fs`diskUsed
    modifies list`head, list`nodes, list`entries, list`repr, list.repr`next, list.repr`prev
    ensures Loading(fs) && fs.prefix == old(fs.prefix) + ["list"]
    ensures list.Kept() && fresh(list.repr - old(list.repr)) && Table(list.entries) == Table(aliases)
  {
    fs.FileSectionBeg("list");
    LoadEach(fs, numberOfAliases, list, aliases, starts);
  }

  /** With all aliases loaded, the count of the header is right. */
  method SetNumber(list: AliasList, number: nat, ghost aliases: seq<Alias>)
    requires list.Kept() && Table(list.entries) == Table(aliases) && Ascending(aliases) && number == |aliases|
    modifies list`number
    ensures list.Valid() && list.entries == aliases
  {
    OneListATable(list.entries, aliases);
    list.number := number;
  }

  /** `internal_alias_load` */
  method LoadList(fs: FileIo, number: nat, ghost aliases: seq<Alias>, ghost i: nat) returns (list: AliasList)
    requires Loading(fs) && StrLt(fs.Top(), "list") && |fs.prefix| + 2 < MAX_PREFIX_TAGS
    requires Block(fs.entries, i, ListEntries(fs.prefix + ["list"], aliases))
    requires number == |aliases| < Pow10(NAME_WIDTH)
    requires (forall j :: 0 <= j < |aliases| ==> Storable(aliases[j])) && Ascending(aliases)
    modifies fs`prefix, fs`prev, fs`foundOnDisk, fs`stream, fs`eof, fs`pos, fs`diskTag, fs`diskType, fs`diskUsed
    ensures Loading(fs) && fs.prefix == old(fs.prefix) && fs.Top() == "list"
    ensures fresh(list) && fresh(list.repr) && list.Valid() && list.entries == aliases
  {
    ghost var starts := ListStarts(fs.entries, i, fs.prefix + ["list"], aliases);
    list := new AliasList();
    LoadListSection(fs, number, list, aliases, starts);
    SetNumber(list, number, aliases);
  }

  method LoadHeader(fs: FileIo, ghost m: int, ghost n: int, ghost i: nat) returns (maxAliases: int, number: int)
    requires Loading(fs) && StrLt(fs.Top(), "header") && |fs.prefix| < MAX_PREFIX_TAGS
    requires INT_MIN <= m <= INT_MAX && INT_MIN <= n <= INT_MAX && i + 1 < |fs.entries|
    requires fs.entries[i] == NumberEntry(fs.prefix + ["header"], "max_aliases", INT, m)
    requires fs.entries[i + 1] == NumberEntry(fs.prefix + ["header"], "number_of_aliases", INT, n)
    modifies fs`prefix, fs`prev, fs`foundOnDisk, fs`stream, fs`eof, fs`pos, fs`diskTag, fs`diskType, fs`diskUsed
    ensures Loading(fs) && fs.prefix == old(fs.prefix) && fs.Top() == "header" && maxAliases == m && number == n
  {
    fs.FileSectionBeg("header");
    maxAliases, number := LoadNumbers(fs, m, n, i);
    fs.FileSectionEnd("header");
  }

  method LoadNumbers(fs: FileIo, ghost m: int, ghost n: int, ghost i: nat) returns (maxAliases: int, number: int)
    requires Loading(fs) && fs.Top() == ""
    requires INT_MIN <= m <= INT_MAX && INT_MIN <= n <= INT_MAX && i + 1 < |fs.entries|
    requires fs.entries[i] == NumberEntry(fs.prefix, "max_aliases", INT, m)
    requires fs.entries[i + 1] == NumberEntry(fs.prefix, "number_of_aliases", INT, n)
    modifies fs`prev, fs`foundOnDisk, fs`stream, fs`eof, fs`pos, fs`diskTag, fs`diskType, fs`diskUsed
    ensures Loading(fs) && maxAliases == m && number == n
  {
    HeaderTags();
    maxAliases := GetNumber(fs, "max_aliases", INT, INT_MIN, INT_MAX, m, i);
    number := GetNumber(fs, "number_of_aliases", INT, INT_MIN, INT_MAX, n, i + 1);
  }

  // ---------------------------------------------------------------- loading the subscriptions

  /** The section of a subscription; one that is not there says that there are no more. */
  method LoadSub(fs: FileIo, ghost sub: Option<string>, ghost i: nat) returns (r: Option<string>)
    requires Loading(fs) && fs.Top() == ""
    requires sub.Some? ==> Block(fs.entries, i, SubEntries(fs.prefix, sub.value))
    requires sub == None ==> Matches(fs.entries, fs.prefix + ["is_used"], BITFLAG) && fs.Stored("is_used") == None
    modifies fs`prev, fs`foundOnDisk, fs`stream, fs`eof, fs`pos, fs`diskTag, fs`diskType, fs`diskUsed
    ensures Loading(fs) && r == sub
  {
    SubTags();
    r := None;
    if sub.Some? {
      BlockAt(fs.entries, i, SubEntries(fs.prefix, sub.value), 0);
      BlockAt(fs.entries, i, SubEntries(fs.prefix, sub.value), 1);
      EntryIsStored(fs.entries, i);
    }
    ReadableIsLegible(fs.entries, fs.prefix + ["is_used"]);
    var isUsed := fs.FileGetBitflag("is_used");
    if isUsed {
      var name := GetMalloc(fs, "name", sub.value, i + 1);
      r := Some(name);
    }
  }

  /** What the reader finds in the k-th section of the subscriptions. */
  function SubAt(subs: seq<string>, k: nat): Option<string> {
    if k < |subs| then Some(subs[k]) else None
  }

  /** After the last subscription the reader finds nothing. */
  ghost predicate Ends(entries: seq<Entry>, section: Path, count: nat) {
    Matches(entries, EndPath(section, count), BITFLAG) && Lookup(entries, EndPath(section, count)) == None
  }

  method LoadNthSub(fs: FileIo, name: string, ghost sub: Option<string>, ghost i: nat) returns (r: Option<string>)
    requires Loading(fs) && ValidTag(name) && StrLt(fs.Top(), name) && |fs.prefix| < MAX_PREFIX_TAGS
    requires sub.Some? ==> Block(fs.entries, i, SubEntries(fs.prefix + [name], sub.value))
    requires sub == None ==> Matches(fs.entries, fs.prefix + [name] + ["is_used"], BITFLAG)
    requires sub == None ==> Lookup(fs.entries, fs.prefix + [name] + ["is_used"]) == None
    modifies fs`prefix, fs`prev, fs`foundOnDisk, fs`stream, fs`eof, fs`pos, fs`diskTag, fs`diskType, fs`diskUsed
    ensures Loading(fs) && fs.prefix == old(fs.prefix) && fs.Top() == name && r == sub
  {
    fs.FileSectionBeg(name);
    r := LoadSub(fs, sub, i);
    fs.FileSectionEnd(name);
  }

  /** Where in the file each of the subscriptions starts; after the last there is none. */
  ghost predicate SubsAt(entries: seq<Entry>, section: Path, subs: seq<string>, starts: seq<nat>) {
    && |starts| == |subs| < ALIAS_LIB_LD_SO_SZ
    && (forall k {:trigger starts[k]} :: 0 <= k < |subs| ==>
          Block(entries, starts[k], SubEntries(section + [Pad(k + 1, NAME_WIDTH)], subs[k])))
    && Ends(entries, section, |subs|)
  }

  lemma SubsStarts(entries: seq<Entry>, i: nat, section: Path, subs: seq<string>) returns (starts: seq<nat>)
    requires |subs| < ALIAS_LIB_LD_SO_SZ && Block(entries, i, SubsEntries(section, subs))
    requires Ends(entries, section, |subs|)
    ensures SubsAt(entries, section, subs, starts)
  {
    var blocks := SubsBlocks(section, subs);
    starts := FlatStarts(entries, i, blocks);
    assert forall k {:trigger starts[k]} :: 0 <= k < |subs| ==> Block(entries, starts[k], blocks[k]);
  }

  lemma SubName(k: nat)
    requires k < ALIAS_LIB_LD_SO_SZ
    ensures ValidTag(Pad(k + 1, NAME_WIDTH)) && StrLt(LastName(k, NAME_WIDTH), Pad(k + 1, NAME_WIDTH))
  {
    assert Pow10(NAME_WIDTH) == 10000;
    NextName(k, NAME_WIDTH);
  }

  /** Where the k-th subscription stands, or the flag is missing. */
  lemma SubIsAt(entries: seq<Entry>, section: Path, subs: seq<string>, starts: seq<nat>, k: nat, name: string)
    returns (i: nat)
    requires k <= |subs| && SubsAt(entries, section, subs, starts) && name == Pad(k + 1, NAME_WIDTH)
    ensures k < |subs| ==> Block(entries, i, SubEntries(section + [name], subs[k]))
    ensures k == |subs| ==> Matches(entries, section + [name] + ["is_used"], BITFLAG)
    ensures k == |subs| ==> Lookup(entries, section + [name] + ["is_used"]) == None
  {
    i := if k < |subs| then starts[k] else 0;
  }

  method LoadOneSub(fs: FileIo, count: nat, ghost k: nat, ghost subs: seq<string>, ghost starts: seq<nat>)
    returns (r: Option<string>)
    requires count == k + 1 && k <= |subs| && SubsAt(fs.entries, fs.prefix, subs, starts)
    requires Loading(fs) && fs.Top() == LastName(k, NAME_WIDTH) && |fs.prefix| < MAX_PREFIX_TAGS
    modifies fs`prefix, fs`prev, fs`foundOnDisk, fs`stream, fs`eof, fs`pos, fs`diskTag, fs`diskType, fs`diskUsed
    ensures Loading(fs) && fs.prefix == old(fs.prefix) && fs.Top() == LastName(count, NAME_WIDTH)
    ensures r == SubAt(subs, k)
  {
    SubName(k);
    var name := Pad(count, NAME_WIDTH);
    ghost var i := SubIsAt(fs.entries, fs.prefix, subs, starts, k, name);
    r := LoadNthSub(fs, name, SubAt(subs, k), i);
  }

  lemma OneMore(subs: seq<string>, k: nat, name: string)
    requires SubAt(subs, k) == Some(name)
    ensures k < |subs| && subs[..k] + [name] == subs[..k + 1]
  {
  }

  /** The loop of `internal_alias_load_subscriptions`. */
  method LoadEachSub(fs: FileIo, ghost subs: seq<string>, ghost starts: seq<nat>) returns (r: seq<string>)
    requires Loading(fs) && fs.Top() == "" && |fs.prefix| < MAX_PREFIX_TAGS
    requires SubsAt(fs.entries, fs.prefix, subs, starts)
    modifies fs`prefix, fs`prev, fs`foundOnDisk, fs`stream, fs`eof, fs`pos, fs`diskTag, fs`diskType, fs`diskUsed
    ensures Loading(fs) && fs.prefix == old(fs.prefix) && r == subs
  {
    r := [];
    var count := 0;
    assert subs[..|subs|] == subs;
    while count < ALIAS_LIB_LD_SO_SZ - 1
      invariant count <= |subs| && Loading(fs) && fs.prefix == old(fs.prefix) && fs.Top() == LastName(count, NAME_WIDTH)
      invariant r == subs[..count]
    {
      ghost var k := count;
      count := count + 1;
      var name := LoadOneSub(fs, count, k, subs, starts);
      if name == None {
        break;
      }
      OneMore(subs, k, name.value);
      r := r + [name.value];
    }
  }

  method LoadSubs(fs: FileIo, ghost subs: seq<string>, ghost starts: seq<nat>) returns (r: seq<string>)
    requires Loading(fs) && StrLt(fs.Top(), "subs") && |fs.prefix| + 1 < MAX_PREFIX_TAGS
    requires SubsAt(fs.entries, fs.prefix + ["subs"], subs, starts)
    modifies fs`prefix, fs`prev, fs`foundOnDisk, fs`stream, fs`eof, fs`pos, fs`diskTag, fs`diskType, fs`diskUsed
    ensures Loading(fs) && fs.prefix == old(fs.prefix) && fs.Top() == "subs" && r == subs
  {
    fs.FileSectionBeg("subs");
    r := LoadEachSub(fs, subs, starts);
    fs.FileSectionEnd("subs");
  }

  /** Where the parts of what `alias_save` wrote stand in the file. */
  ghost predicate FileAt(entries: seq<Entry>, i: nat, section: Path, m: int, aliases: seq<Alias>, subs: seq<string>,
                         starts: seq<nat>) {
    && INT_MIN <= m <= INT_MAX && |aliases| < Pow10(NAME_WIDTH) && i + 1 < |entries|
    && entries[i] == NumberEntry(section + ["header"], "max_aliases", INT, m)
    && entries[i + 1] == NumberEntry(section + ["header"], "number_of_aliases", INT, |aliases|)
    && Block(entries, i + 2, ListEntries(section + ["list"], aliases))
    && (forall k :: 0 <= k < |aliases| ==> Storable(aliases[k])) && Ascending(aliases)
    && SubsAt(entries, section + ["subs"], subs, starts)
  }

  lemma HeaderBlock(entries: seq<Entry>, i: nat, section: Path, m: int, n: int)
    requires Block(entries, i, HeaderEntries(section, m, n))
    ensures i + 1 < |entries| && entries[i] == NumberEntry(section, "max_aliases", INT, m)
    ensures entries[i + 1] == NumberEntry(section, "number_of_aliases", INT, n)
  {
    BlockAt(entries, i, HeaderEntries(section, m, n), 0);
    BlockAt(entries, i, HeaderEntries(section, m, n), 1);
  }

  lemma FileBlocks(entries: seq<Entry>, i: nat, section: Path, m: int, aliases: seq<Alias>, subs: seq<string>)
    returns (j: nat)
    requires Block(entries, i, AliasFile(section, m, aliases, subs))
    ensures i + 1 < |entries|
    ensures entries[i] == NumberEntry(section + ["header"], "max_aliases", INT, m)
    ensures entries[i + 1] == NumberEntry(section + ["header"], "number_of_aliases", INT, |aliases|)
    ensures Block(entries, i + 2, ListEntries(section + ["list"], aliases))
    ensures Block(entries, j, SubsEntries(section + ["subs"], subs))
  {
    var h, l := HeaderEntries(section + ["header"], m, |aliases|), ListEntries(section + ["list"], aliases);
    j := i + |h + l|;
    BlockPart(entries, i, h + l, SubsEntries(section + ["subs"], subs));
    BlockPart(entries, i, h, l);
    HeaderBlock(entries, i, section + ["header"], m, |aliases|);
  }

  lemma EndIsAbsent(entries: File, section: Path, count: nat)
    requires AllBelow(entries, |entries|, EndPath(section, count))
    ensures Ends(entries, section, count)
  {
    BeyondIsAbsent(entries, EndPath(section, count), BITFLAG);
  }

  lemma FileIsAt(entries: seq<Entry>, i: nat, section: Path, m: int, aliases: seq<Alias>, subs: seq<string>)
    returns (starts: seq<nat>)
    requires Block(entries, i, AliasFile(section, m, aliases, subs)) && Ends(entries, section + ["subs"], |subs|)
    requires INT_MIN <= m <= INT_MAX && |aliases| < Pow10(NAME_WIDTH) && |subs| < ALIAS_LIB_LD_SO_SZ
    requires (forall k :: 0 <= k < |aliases| ==> Storable(aliases[k])) && Ascending(aliases)
    ensures FileAt(entries, i, section, m, aliases, subs, starts)
  {
    var j := FileBlocks(entries, i, section, m, aliases, subs);
    starts := SubsStarts(entries, j, section + ["subs"], subs);
  }

  /** The limit and the aliases. */
  method LoadAliases(fs: FileIo, ghost m: int, ghost aliases: seq<Alias>, ghost i: nat)
    returns (maxAliases: int, list: AliasList)
    requires Loading(fs) && StrLt(fs.Top(), "header") && |fs.prefix| + 2 < MAX_PREFIX_TAGS
    requires INT_MIN <= m <= INT_MAX && |aliases| < Pow10(NAME_WIDTH) && i + 1 < |fs.entries|
    requires fs.entries[i] == NumberEntry(fs.prefix + ["header"], "max_aliases", INT, m)
    requires fs.entries[i + 1] == NumberEntry(fs.prefix + ["header"], "number_of_aliases", INT, |aliases|)
    requires Block(fs.entries, i + 2, ListEntries(fs.prefix + ["list"], aliases))
    requires (forall k :: 0 <= k < |aliases| ==> Storable(aliases[k])) && Ascending(aliases)
    modifies fs`prefix, fs`prev, fs`foundOnDisk, fs`stream, fs`eof, fs`pos, fs`diskTag, fs`diskType, fs`diskUsed
    ensures Loading(fs) && fs.prefix == old(fs.prefix) && fs.Top() == "list"
    ensures maxAliases == m && fresh(list) && fresh(list.repr) && list.Valid() && list.entries == aliases
  {
    assert Pow10(NAME_WIDTH) == 10000;
    var number;
    maxAliases, number := LoadHeader(fs, m, |aliases|, i);
    list := LoadList(fs, number, aliases, i + 2);
  }

  /** The subscriptions, while the list is left alone. */
  method LoadRest(fs: FileIo, list: AliasList, ghost subs: seq<string>, ghost starts: seq<nat>)
    returns (libraries: seq<string>)
    requires Loading(fs) && fs.Top() == "list" && |fs.prefix| + 1 < MAX_PREFIX_TAGS && list.Valid()
    requires SubsAt(fs.entries, fs.prefix + ["subs"], subs, starts)
    modifies fs`prefix, fs`prev, fs`foundOnDisk, fs`stream, fs`eof, fs`pos, fs`diskTag, fs`diskType, fs`diskUsed
    ensures Loading(fs) && fs.prefix == old(fs.prefix) && libraries == subs
    ensures list.Valid() && list.entries == old(list.entries)
  {
    libraries := LoadSubs(fs, subs, starts);
  }

  /** `alias_load`: what was saved, wherever in the file it is. */
  method AliasLoad(fs: FileIo, ghost m: int, ghost aliases: seq<Alias>, ghost subs: seq<string>, ghost i: nat,
                   ghost starts: seq<nat>)
    returns (maxAliases: int, list: AliasList, libraries: seq<string>)
    requires Loading(fs) && StrLt(fs.Top(), "header") && |fs.prefix| + 2 < MAX_PREFIX_TAGS
    requires FileAt(fs.entries, i, fs.prefix, m, aliases, subs, starts)
    modifies fs`prefix, fs`prev, fs`foundOnDisk, fs`stream, fs`eof, fs`pos, fs`diskTag, fs`diskType, fs`diskUsed
    ensures Loading(fs) && fs.prefix == old(fs.prefix)
    ensures maxAliases == m && libraries == subs && fresh(list) && list.Valid() && list.entries == aliases
  {
    maxAliases, list := LoadAliases(fs, m, aliases, i);
    libraries := LoadRest(fs, list, subs, starts);
  }

  // ---------------------------------------------------------------- whole files

  /** Tags of one section, all short. */
  lemma ReadableTags(section: Path, entries: seq<Entry>)
    requires ShortNames(section)
    requires forall i :: 0 <= i < |entries| ==>
      && |entries[i].path| == |section| + 1 && entries[i].path[..|section|] == section
      && |entries[i].path[|section|]| + |OBJECT| < TAG_MAX_SIZE
    ensures Readable(entries)
  {
    forall i | 0 <= i < |entries|
      ensures ShortNames(entries[i].path)
    {
      assert entries[i].path == section + [entries[i].path[|section|]];
    }
  }

  lemma FirstReadable(section: Path, f: Flags)
    requires ShortNames(section)
    ensures Readable(FirstFlags(section, f))
  {
    ReadableTags(section, FirstFlags(section, f));
  }

  lemma MiddleReadable(section: Path, f: Flags)
    requires ShortNames(section)
    ensures Readable(MiddleFlags(section, f))
  {
    ReadableTags(section, MiddleFlags(section, f));
  }

  lemma LastReadable(section: Path, f: Flags)
    requires ShortNames(section)
    ensures Readable(LastFlags(section, f))
  {
    ReadableTags(section, LastFlags(section, f));
  }

  lemma FlagsReadable(section: Path, f: Flags)
    requires ShortNames(section)
    ensures Readable(FlagEntries(section, f))
  {
    FirstReadable(section, f);
    MiddleReadable(section, f);
    LastReadable(section, f);
    ReadableBoth(FirstFlags(section, f), MiddleFlags(section, f));
    ReadableBoth(FirstFlags(section, f) + MiddleFlags(section, f), LastFlags(section, f));
  }

  lemma AliasReadable(section: Path, a: Alias)
    requires ShortNames(section)
    ensures Readable(AliasEntries(section, a))
  {
    var c, d := CommandEntries(section, a), CommentEntries(section, a.body.comment);
    var f, s := FlagEntries(section + ["flags"], a.body.flags), [StringEntry(section, "string", a.body.str)];
    ShortSnoc(section, "flags");
    FlagsReadable(section + ["flags"], a.body.flags);
    ReadableTags(section, c);
    ReadableTags(section, d);
    ReadableTags(section, s);
    ReadableBoth(c, d);
    ReadableBoth(c + d, f);
    ReadableBoth(c + d + f, s);
  }

  lemma ListReadable(section: Path, aliases: seq<Alias>)
    requires ShortNames(section) && |aliases| < Pow10(NAME_WIDTH)
    ensures Readable(ListEntries(section, aliases))
  {
    var blocks := ListBlocks(section, aliases);
    forall k | 0 <= k < |blocks|
      ensures Readable(blocks[k])
    {
      ShortNumber(section, k + 1, NAME_WIDTH);
      AliasReadable(section + [Pad(k + 1, NAME_WIDTH)], aliases[k]);
    }
    ReadableFlat(blocks);
  }

  lemma SubsReadable(section: Path, subs: seq<string>)
    requires ShortNames(section) && |subs| < Pow10(NAME_WIDTH)
    ensures Readable(SubsEntries(section, subs))
  {
    var blocks := SubsBlocks(section, subs);
    forall k | 0 <= k < |blocks|
      ensures Readable(blocks[k])
    {
      ShortNumber(section, k + 1, NAME_WIDTH);
      ReadableTags(section + [Pad(k + 1, NAME_WIDTH)], SubEntries(section + [Pad(k + 1, NAME_WIDTH)], subs[k]));
    }
    ReadableFlat(blocks);
  }

  /** No name that is written is too long for the reader. */
  lemma FileReadable(section: Path, m: int, aliases: seq<Alias>, subs: seq<string>)
    requires ShortNames(section) && |aliases| < Pow10(NAME_WIDTH) && |subs| < Pow10(NAME_WIDTH)
    ensures Readable(AliasFile(section, m, aliases, subs))
  {
    ShortSnoc(section, "header");
    ShortSnoc(section, "list");
    ShortSnoc(section, "subs");
    var h, l := HeaderEntries(section + ["header"], m, |aliases|), ListEntries(section + ["list"], aliases);
    ReadableTags(section + ["header"], h);
    ListReadable(section + ["list"], aliases);
    SubsReadable(section + ["subs"], subs);
    ReadableBoth(h, l);
    ReadableBoth(h + l, SubsEntries(section + ["subs"], subs));
  }

  /** A file that holds only what `alias_save` writes. */
  method SaveFile(maxAliases: int, list: AliasList, subs: seq<string>, fileVersion: int)
    returns (bytes: string, ghost content: File, ghost starts: seq<nat>)
    requires INT_MIN <= maxAliases <= INT_MAX && INT_MIN <= fileVersion <= INT_MAX
    requires list.Valid() && |list.entries| < Pow10(NAME_WIDTH)
    requires forall i :: 0 <= i < |list.entries| ==> Storable(list.entries[i])
    requires forall i :: 0 <= i < |subs| ==> |subs[i]| < ALIAS_LIB_NAME_SZ
    ensures bytes == Bytes(content) && content != [] && content[0] == VersionEntry(fileVersion) && Readable(content)
    ensures FileAt(content, 1, [], maxAliases, list.entries, Saved(subs), starts)
  {
    var fs := WriteOpen(fileVersion);
    AliasSave(fs, maxAliases, list, subs);
    bytes, content := fs.stream, fs.entries;
    WholeBlock([VersionEntry(fileVersion)], AliasFile([], maxAliases, list.entries, Saved(subs)));
    assert Pow10(NAME_WIDTH) == 10000;
    FileReadable([], maxAliases, list.entries, Saved(subs));
    VersionReadable(fileVersion, AliasFile([], maxAliases, list.entries, Saved(subs)));
    EndIsAbsent(content, [] + ["subs"], |Saved(subs)|);
    starts := FileIsAt(content, 1, [], maxAliases, list.entries, Saved(subs));
  }

  method LoadFile(bytes: string, ghost content: File, ghost starts: seq<nat>, ghost fileVersion: int,
                  ghost m: int, ghost aliases: seq<Alias>, ghost subs: seq<string>)
    returns (maxAliases: int, list: AliasList, libraries: seq<string>)
    requires bytes == Bytes(content) && content != [] && content[0] == VersionEntry(fileVersion) && Readable(content)
    requires INT_MIN <= fileVersion <= INT_MAX && FileAt(content, 1, [], m, aliases, subs, starts)
    ensures list.Valid() && list.entries == aliases && maxAliases == m && libraries == subs
  {
    var io := ReadOpen(bytes, content, fileVersion);
    maxAliases, list, libraries := AliasLoad(io, m, aliases, subs, 1, starts);
  }

  /** Saving and loading gives back the limit, the aliases and, of the subscriptions, all exactly
      if there are fewer than the array has room for. */
  method SaveAndLoad(maxAliases: int, list: AliasList, subs: seq<string>, fileVersion: int)
    returns (again: AliasList, m: int, libraries: seq<string>)
    requires INT_MIN <= maxAliases <= INT_MAX && INT_MIN <= fileVersion <= INT_MAX
    requires list.Valid() && |list.entries| < Pow10(NAME_WIDTH)
    requires forall i :: 0 <= i < |list.entries| ==> Storable(list.entries[i])
    requires forall i :: 0 <= i < |subs| ==> |subs[i]| < ALIAS_LIB_NAME_SZ
    ensures again.Valid() && again.entries == list.entries && m == maxAliases
    ensures libraries == Saved(subs) && (libraries == subs <==> |subs| < ALIAS_LIB_LD_SO_SZ)
  {
    ghost var content, starts;
    var bytes;
    bytes, content, starts := SaveFile(maxAliases, list, subs, fileVersion);
    m, again, libraries := LoadFile(bytes, content, starts, fileVersion, maxAliases, list.entries, Saved(subs));
  }

  /** Of sixteen subscriptions the last is lost. */
  method LastIsLost(fileVersion: int) returns (subs: seq<string>, libraries: seq<string>)
    requires INT_MIN <= fileVersion <= INT_MAX
    ensures |subs| == ALIAS_LIB_LD_SO_SZ && libraries == subs[..ALIAS_LIB_LD_SO_SZ - 1] != subs
  {
    assert Pow10(NAME_WIDTH) == 10000;
    subs := seq(ALIAS_LIB_LD_SO_SZ, i => "library");
    var list := new AliasList();
    var again, m;
    again, m, libraries := SaveAndLoad(0, list, subs, fileVersion);
  }
}

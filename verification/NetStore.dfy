/** The network part of the file of banned players and networks. */
module NetStore {
  import opened Options
  import opened CStrings
  import opened Paths
  import opened Disk
  import opened Records
  import opened Links
  import opened NetList

  const NAME_WIDTH := 5

  // ---------------------------------------------------------------- what is in the file

  function IpEntries(section: Path, ips: Address): seq<Entry> {
    [NumberEntry(section, "1", SHORT, ips.o0), NumberEntry(section, "2", SHORT, ips.o1),
     NumberEntry(section, "3", SHORT, ips.o2), NumberEntry(section, "4", SHORT, ips.o3)]
  }

  function NetEntries(section: Path, net: Net): seq<Entry> {
    [NumberEntry(section, "auth_type", SHORT, net.authType)] + IpEntries(section + ["ip_addr"], net.ips)
    + [NumberEntry(section, "ip_mask", SHORT, net.ipMask)]
  }

  /** The sections of the permanent networks, numbered from 1. */
  function NetBlocks(section: Path, kept: seq<Net>): (r: seq<seq<Entry>>)
    ensures |r| == |kept|
    ensures forall k {:trigger r[k]} :: 0 <= k < |r| ==>
      r[k] == NetEntries(section + [Pad(k + 1, NAME_WIDTH)], kept[k])
  {
    if kept == [] then []
    else
      var front := NetBlocks(section, kept[..|kept| - 1]);
      var last := NetEntries(section + [Pad(|kept|, NAME_WIDTH)], kept[|kept| - 1]);
      front + [last]
  }

  function NetsEntries(section: Path, kept: seq<Net>): seq<Entry> {
    Flat(NetBlocks(section, kept))
  }

  /** What `auth_player_save` writes in the section of the networks. */
  function NetFile(section: Path, nets: seq<Net>): seq<Entry> {
    [NumberEntry(section + ["header"], "number", UINT, |Permanent(nets)|)]
    + NetsEntries(section + ["nets"], Permanent(nets))
  }

  predicate Storable(net: Net) {
    SHRT_MIN <= net.authType <= SHRT_MAX
  }

  lemma NetTags()
    ensures ValidTag("auth_type") && ValidTag("ip_addr") && ValidTag("ip_mask")
    ensures StrLt("", "auth_type") && StrLt("auth_type", "ip_addr") && StrLt("ip_addr", "ip_mask")
  {
  }

  lemma IpTags()
    ensures ValidTag("1") && ValidTag("2") && ValidTag("3") && ValidTag("4")
    ensures StrLt("", "1") && StrLt("1", "2") && StrLt("2", "3") && StrLt("3", "4")
  {
  }

  lemma ConcatNet(base: seq<Entry>, a: Entry, ips: seq<Entry>, b: Entry)
    ensures base + [a] + ips + [b] == base + ([a] + ips + [b])
  {
  }

  lemma ConcatIps(base: seq<Entry>, a: Entry, b: Entry, c: Entry, d: Entry)
    ensures base + [a] + [b] + [c] + [d] == base + [a, b, c, d]
  {
  }

  // ---------------------------------------------------------------- saving

  method SaveIps(fs: FileIo, ips: Address)
    requires Saving(fs) && fs.Top() == ""
    modifies fs`stream, fs`prev, fs`entries, fs`pos
    ensures Saving(fs) && fs.Top() == "4"
    ensures fs.entries == old(fs.entries) + IpEntries(fs.prefix, ips)
  {
    IpTags();
    ConcatIps(fs.entries, NumberEntry(fs.prefix, "1", SHORT, ips.o0), NumberEntry(fs.prefix, "2", SHORT, ips.o1),
              NumberEntry(fs.prefix, "3", SHORT, ips.o2), NumberEntry(fs.prefix, "4", SHORT, ips.o3));
    PutNumber(fs, "1", SHORT, ips.o0);
    PutNumber(fs, "2", SHORT, ips.o1);
    PutNumber(fs, "3", SHORT, ips.o2);
    PutNumber(fs, "4", SHORT, ips.o3);
  }

  method SaveIpSection(fs: FileIo, ips: Address)
    requires Saving(fs) && StrLt(fs.Top(), "ip_addr") && |fs.prefix| < MAX_PREFIX_TAGS
    modifies fs`stream, fs`prefix, fs`prev, fs`entries, fs`pos
    ensures Saving(fs) && fs.prefix == old(fs.prefix) && fs.Top() == "ip_addr"
    ensures fs.entries == old(fs.entries) + IpEntries(fs.prefix + ["ip_addr"], ips)
  {
    NetTags();
    fs.FileSectionBeg("ip_addr");
    SaveIps(fs, ips);
    fs.FileSectionEnd("ip_addr");
  }

  /** One network, in a section of its own. */
  method SaveNet(fs: FileIo, net: Net)
    requires Saving(fs) && fs.Top() == "" && |fs.prefix| < MAX_PREFIX_TAGS && Storable(net)
    modifies fs`stream, fs`prefix, fs`prev, fs`entries, fs`pos
    ensures Saving(fs) && fs.prefix == old(fs.prefix) && fs.Top() == "ip_mask"
    ensures fs.entries == old(fs.entries) + NetEntries(fs.prefix, net)
  {
    NetTags();
    ConcatNet(fs.entries, NumberEntry(fs.prefix, "auth_type", SHORT, net.authType),
              IpEntries(fs.prefix + ["ip_addr"], net.ips), NumberEntry(fs.prefix, "ip_mask", SHORT, net.ipMask));
    PutNumber(fs, "auth_type", SHORT, net.authType);
    SaveIpSection(fs, net.ips);
    PutNumber(fs, "ip_mask", SHORT, net.ipMask);
  }

  /** The name of a network's section, and what is in it. */
  method SaveNumbered(fs: FileIo, name: string, net: Net)
    requires Saving(fs) && ValidTag(name) && StrLt(fs.Top(), name)
    requires |fs.prefix| + 1 < MAX_PREFIX_TAGS && Storable(net)
    modifies fs`stream, fs`prefix, fs`prev, fs`entries, fs`pos
    ensures Saving(fs) && fs.prefix == old(fs.prefix) && fs.Top() == name
    ensures fs.entries == old(fs.entries) + NetEntries(fs.prefix + [name], net)
  {
    fs.FileSectionBeg(name);
    SaveNet(fs, net);
    fs.FileSectionEnd(name);
  }

  lemma {:induction false} PermanentSnoc(nets: seq<Net>, k: nat)
    requires k < |nets|
    ensures Permanent(nets[..k + 1]) ==
      if nets[k].tmp then Permanent(nets[..k]) else Permanent(nets[..k]) + [nets[k]]
    ensures |Permanent(nets[..k + 1])| <= |Permanent(nets)|
    decreases k
  {
    if k == 0 {
      assert nets[..1][1..] == [];
    } else {
      PermanentSnoc(nets[1..], k - 1);
      assert nets[..k + 1][1..] == nets[1..][..k] && nets[..k][1..] == nets[1..][..k - 1];
    }
  }

  lemma NetsSnoc(section: Path, kept: seq<Net>, net: Net)
    ensures NetBlocks(section, kept + [net]) ==
      NetBlocks(section, kept) + [NetEntries(section + [Pad(|kept| + 1, NAME_WIDTH)], net)]
  {
    assert (kept + [net])[..|kept|] == kept;
  }

  lemma NetsNext(base: seq<Entry>, section: Path, kept: seq<Net>, net: Net, block: seq<Entry>)
    requires block == NetEntries(section + [Pad(|kept| + 1, NAME_WIDTH)], net)
    ensures base + NetsEntries(section, kept) + block == base + NetsEntries(section, kept + [net])
  {
    NetsSnoc(section, kept, net);
    FlatSnoc(base, NetBlocks(section, kept), NetBlocks(section, kept + [net]), block);
  }

  /** The next permanent network. */
  method SaveNext(fs: FileIo, net: Net, count: nat, ghost base: seq<Entry>, ghost kept: seq<Net>)
    requires Saving(fs) && fs.Top() == LastName(|kept|, NAME_WIDTH) && count == |kept| + 1 < Pow10(NAME_WIDTH)
    requires |fs.prefix| + 1 < MAX_PREFIX_TAGS && Storable(net)
    requires fs.entries == base + NetsEntries(fs.prefix, kept)
    modifies fs`stream, fs`prefix, fs`prev, fs`entries, fs`pos
    ensures Saving(fs) && fs.prefix == old(fs.prefix) && fs.Top() == LastName(count, NAME_WIDTH)
    ensures fs.entries == base + NetsEntries(fs.prefix, kept + [net])
  {
    var buffer := Pad(count, NAME_WIDTH);
    NextName(|kept|, NAME_WIDTH);
    ghost var block := NetEntries(fs.prefix + [buffer], net);
    NetsNext(base, fs.prefix, kept, net, block);
    SaveNumbered(fs, buffer, net);
  }

  /** One round of the loop: a temporary network is passed over. */
  method SaveNth(fs: FileIo, net: Net, count: nat, ghost base: seq<Entry>, ghost nets: seq<Net>, ghost scan: nat)
    returns (count': nat)
    requires scan < |nets| && net == nets[scan] && Storable(net) && |Permanent(nets)| < Pow10(NAME_WIDTH)
    requires Saving(fs) && fs.Top() == LastName(count, NAME_WIDTH) && |fs.prefix| + 1 < MAX_PREFIX_TAGS
    requires count == |Permanent(nets[..scan])| && fs.entries == base + NetsEntries(fs.prefix, Permanent(nets[..scan]))
    modifies fs`stream, fs`prefix, fs`prev, fs`entries, fs`pos
    ensures Saving(fs) && fs.prefix == old(fs.prefix) && fs.Top() == LastName(count', NAME_WIDTH)
    ensures count' == |Permanent(nets[..scan + 1])|
    ensures fs.entries == base + NetsEntries(fs.prefix, Permanent(nets[..scan + 1]))
  {
    PermanentSnoc(nets, scan);
    count' := count;
    if !net.tmp {
      count' := count + 1;
      SaveNext(fs, net, count', base, Permanent(nets[..scan]));
    }
  }

  /** The loop over the networks: those that are not temporary, numbered as they come. */
  method SaveEach(fs: FileIo, start: Node?<Net>, ghost nodes: seq<Node<Net>>, ghost nets: seq<Net>)
    requires Saving(fs) && fs.Top() == "" && |fs.prefix| + 1 < MAX_PREFIX_TAGS
    requires Holds(nodes, nets) && start == At(nodes, 0) && Forward(nodes)
    requires forall i :: 0 <= i < |nets| ==> Storable(nets[i])
    requires |Permanent(nets)| < Pow10(NAME_WIDTH)
    modifies fs`stream, fs`prefix, fs`prev, fs`entries, fs`pos
    ensures Saving(fs) && fs.prefix == old(fs.prefix)
    ensures fs.entries == old(fs.entries) + NetsEntries(fs.prefix, Permanent(nets))
  {
    var scan, count := start, 0;
    ghost var k := 0;
    ghost var base: seq<Entry> := fs.entries;
    assert base + [] == base;
    while scan != null
      invariant k <= |nets| && scan == At(nodes, k)
      invariant Saving(fs) && fs.prefix == old(fs.prefix) && fs.Top() == LastName(count, NAME_WIDTH)
      invariant count == |Permanent(nets[..k])|
      invariant fs.entries == base + NetsEntries(fs.prefix, Permanent(nets[..k]))
      decreases |nets| - k
    {
      count := SaveNth(fs, scan.value, count, base, nets, k);
      scan, k := scan.next, k + 1;
    }
    assert nets[..k] == nets;
  }

  method SaveNetsSection(fs: FileIo, list: Nets)
    requires Saving(fs) && StrLt(fs.Top(), "nets") && |fs.prefix| + 2 < MAX_PREFIX_TAGS && list.Listed()
    requires forall i :: 0 <= i < |list.nets| ==> Storable(list.nets[i])
    requires |Permanent(list.nets)| < Pow10(NAME_WIDTH)
    modifies fs`stream, fs`prefix, fs`prev, fs`entries, fs`pos
    ensures Saving(fs) && fs.prefix == old(fs.prefix) && fs.Top() == "nets"
    ensures fs.entries == old(fs.entries) + NetsEntries(fs.prefix + ["nets"], Permanent(list.nets))
  {
    fs.FileSectionBeg("nets");
    SaveEach(fs, list.start, list.nodes, list.nets);
    fs.FileSectionEnd("nets");
  }

  /** What is between the begin and the end of the network section. */
  method SaveInside(fs: FileIo, list: Nets)
    requires Saving(fs) && fs.Top() == "" && |fs.prefix| + 2 < MAX_PREFIX_TAGS && list.Listed()
    requires forall i :: 0 <= i < |list.nets| ==> Storable(list.nets[i])
    requires |Permanent(list.nets)| < Pow10(NAME_WIDTH)
    modifies fs`stream, fs`prefix, fs`prev, fs`entries, fs`pos
    ensures Saving(fs) && fs.prefix == old(fs.prefix)
    ensures fs.entries == old(fs.entries) + NetFile(fs.prefix, list.nets)
  {
    var number := list.Number();
    ConcatNets(fs.entries, NumberEntry(fs.prefix + ["header"], "number", UINT, number),
               NetsEntries(fs.prefix + ["nets"], Permanent(list.nets)));
    SaveHeader(fs, number);
    SaveNetsSection(fs, list);
  }

  /** The network part of `auth_player_save`. */
  method SaveNetFile(fs: FileIo, list: Nets)
    requires Saving(fs) && StrLt(fs.Top(), "net") && |fs.prefix| + 3 < MAX_PREFIX_TAGS && list.Listed()
    requires forall i :: 0 <= i < |list.nets| ==> Storable(list.nets[i])
    requires |Permanent(list.nets)| < Pow10(NAME_WIDTH)
    modifies fs`stream, fs`prefix, fs`prev, fs`entries, fs`pos
    ensures Saving(fs) && fs.prefix == old(fs.prefix) && fs.Top() == "net"
    ensures fs.entries == old(fs.entries) + NetFile(fs.prefix + ["net"], list.nets)
  {
    SaveOpenSection(fs, list);
    fs.FileSectionEnd("net");
  }

  /** The section up to its end. */
  method SaveOpenSection(fs: FileIo, list: Nets)
    requires Saving(fs) && StrLt(fs.Top(), "net") && |fs.prefix| + 3 < MAX_PREFIX_TAGS && list.Listed()
    requires forall i :: 0 <= i < |list.nets| ==> Storable(list.nets[i])
    requires |Permanent(list.nets)| < Pow10(NAME_WIDTH)
    modifies fs`stream, fs`prefix, fs`prev, fs`entries, fs`pos
    ensures Saving(fs) && fs.prefix == old(fs.prefix) + ["net"]
    ensures fs.entries == old(fs.entries) + NetFile(fs.prefix, list.nets)
  {
    fs.FileSectionBeg("net");
    SaveInside(fs, list);
  }

  lemma ConcatNets(base: seq<Entry>, a: Entry, b: seq<Entry>)
    ensures base + [a] + b == base + ([a] + b)
  {
  }

  method SaveHeader(fs: FileIo, number: nat)
    requires Saving(fs) && fs.Top() == "" && |fs.prefix| < MAX_PREFIX_TAGS && number < NUMBER_MAX
    modifies fs`stream, fs`prefix, fs`prev, fs`entries, fs`pos
    ensures Saving(fs) && fs.prefix == old(fs.prefix) && fs.Top() == "header"
    ensures fs.entries == old(fs.entries) + [NumberEntry(fs.prefix + ["header"], "number", UINT, number)]
  {
    fs.FileSectionBeg("header");
    PutNumber(fs, "number", UINT, number);
    fs.FileSectionEnd("header");
  }

  // ---------------------------------------------------------------- loading

  method GetOctet(fs: FileIo, tag: string, ghost n: Octet, ghost i: nat) returns (r: Octet)
    requires Loading(fs) && ValidTag(tag) && StrLt(fs.Top(), tag)
    requires i < |fs.entries| && fs.entries[i] == NumberEntry(fs.prefix, tag, SHORT, n)
    modifies fs`prev, fs`foundOnDisk, fs`stream, fs`eof, fs`pos, fs`diskTag, fs`diskType, fs`diskUsed
    ensures Loading(fs) && fs.Top() == tag && r == n
  {
    var value := GetNumber(fs, tag, SHORT, SHRT_MIN, SHRT_MAX, n, i);
    r := value % 256;
  }

  method LoadIps(fs: FileIo, ghost ips: Address, ghost i: nat) returns (r: Address)
    requires Loading(fs) && fs.Top() == "" && Block(fs.entries, i, IpEntries(fs.prefix, ips))
    modifies fs`prev, fs`foundOnDisk, fs`stream, fs`eof, fs`pos, fs`diskTag, fs`diskType, fs`diskUsed
    ensures Loading(fs) && r == ips
  {
    IpTags();
    ghost var part := IpEntries(fs.prefix, ips);
    BlockAt(fs.entries, i, part, 0);
    BlockAt(fs.entries, i, part, 1);
    BlockAt(fs.entries, i, part, 2);
    BlockAt(fs.entries, i, part, 3);
    var o0 := GetOctet(fs, "1", ips.o0, i);
    var o1 := GetOctet(fs, "2", ips.o1, i + 1);
    var o2 := GetOctet(fs, "3", ips.o2, i + 2);
    var o3 := GetOctet(fs, "4", ips.o3, i + 3);
    r := Address(o0, o1, o2, o3);
  }

  method LoadIpSection(fs: FileIo, ghost ips: Address, ghost i: nat) returns (r: Address)
    requires Loading(fs) && StrLt(fs.Top(), "ip_addr") && |fs.prefix| < MAX_PREFIX_TAGS
    requires Block(fs.entries, i, IpEntries(fs.prefix + ["ip_addr"], ips))
    modifies fs`prefix, fs`prev, fs`foundOnDisk, fs`stream, fs`eof, fs`pos, fs`diskTag, fs`diskType, fs`diskUsed
    ensures Loading(fs) && fs.prefix == old(fs.prefix) && fs.Top() == "ip_addr" && r == ips
  {
    fs.FileSectionBeg("ip_addr");
    r := LoadIps(fs, ips, i);
    fs.FileSectionEnd("ip_addr");
  }

  /** One network, as it was saved. */
  method LoadNet(fs: FileIo, ghost net: Net, ghost i: nat) returns (authType: int, ips: Address, ipMask: int)
    requires Loading(fs) && fs.Top() == "" && |fs.prefix| < MAX_PREFIX_TAGS && Storable(net)
    requires Block(fs.entries, i, NetEntries(fs.prefix, net))
    modifies fs`prefix, fs`prev, fs`foundOnDisk, fs`stream, fs`eof, fs`pos, fs`diskTag, fs`diskType, fs`diskUsed
    ensures Loading(fs) && fs.prefix == old(fs.prefix)
    ensures authType == net.authType && ips == net.ips && ipMask == net.ipMask
  {
    NetTags();
    NetParts(fs.entries, i, fs.prefix, net);
    authType := GetNumber(fs, "auth_type", SHORT, SHRT_MIN, SHRT_MAX, net.authType, i);
    ips := LoadIpSection(fs, net.ips, i + 1);
    ipMask := GetNumber(fs, "ip_mask", SHORT, SHRT_MIN, SHRT_MAX, net.ipMask, i + 5);
  }

  lemma NetParts(entries: seq<Entry>, i: nat, section: Path, net: Net)
    requires Block(entries, i, NetEntries(section, net))
    ensures i + 5 < |entries| && entries[i] == NumberEntry(section, "auth_type", SHORT, net.authType)
    ensures Block(entries, i + 1, IpEntries(section + ["ip_addr"], net.ips))
    ensures entries[i + 5] == NumberEntry(section, "ip_mask", SHORT, net.ipMask)
  {
    var a, ips := NumberEntry(section, "auth_type", SHORT, net.authType), IpEntries(section + ["ip_addr"], net.ips);
    var b := NumberEntry(section, "ip_mask", SHORT, net.ipMask);
    BlockPart(entries, i, [a] + ips, [b]);
    BlockPart(entries, i, [a], ips);
    BlockAt(entries, i, [a], 0);
    BlockAt(entries, i + 5, [b], 0);
  }

  /** A section that was saved. */
  method LoadSection(fs: FileIo, name: string, ghost net: Net, ghost i: nat)
    returns (authType: int, ips: Address, ipMask: Mask)
    requires Loading(fs) && ValidTag(name) && StrLt(fs.Top(), name) && |fs.prefix| + 1 < MAX_PREFIX_TAGS
    requires Block(fs.entries, i, NetEntries(fs.prefix + [name], net)) && Storable(net)
    modifies fs`prefix, fs`prev, fs`foundOnDisk, fs`stream, fs`eof, fs`pos, fs`diskTag, fs`diskType, fs`diskUsed
    ensures Loading(fs) && fs.prefix == old(fs.prefix) && fs.Top() == name
    ensures authType == net.authType && ips == net.ips && ipMask == net.ipMask
  {
    fs.FileSectionBeg(name);
    authType, ips, ipMask := LoadNet(fs, net, i);
    fs.FileSectionEnd(name);
  }

  /** `auth_player_net_add` of a network that was loaded. */
  method AddLoaded(list: Nets, authType: int, ips: Address, ipMask: Mask, ghost net: Net)
    requires list.Valid() && !net.tmp && Masked(net.ips, net.ipMask) == net.ips
    requires authType == net.authType && ips == net.ips && ipMask == net.ipMask
    modifies list, list.repr`next, list.repr`prev
    ensures list.Valid() && fresh(list.repr - old(list.repr)) && list.nets == Inserted(old(list.nets), net)
  {
    var add, at := list.Add(ips, ipMask, authType);
    assert Net(net.ips, net.ipMask, net.authType, false) == net;
  }

  /** What may be saved: masked, permanent, and with an answer that fits its type. */
  predicate Kept(nets: seq<Net>) {
    forall i :: 0 <= i < |nets| ==>
      !nets[i].tmp && Storable(nets[i]) && Masked(nets[i].ips, nets[i].ipMask) == nets[i].ips
  }

  /** Where in the file each of the networks starts. */
  predicate NetsAt(entries: seq<Entry>, section: Path, kept: seq<Net>, starts: seq<nat>) {
    && |starts| == |kept| < Pow10(NAME_WIDTH) && Kept(kept)
    && forall k {:trigger starts[k]} :: 0 <= k < |kept| ==>
         Block(entries, starts[k], NetEntries(section + [Pad(k + 1, NAME_WIDTH)], kept[k]))
  }

  lemma NetStarts(entries: seq<Entry>, i: nat, section: Path, kept: seq<Net>) returns (starts: seq<nat>)
    requires Block(entries, i, NetsEntries(section, kept)) && Kept(kept) && |kept| < Pow10(NAME_WIDTH)
    ensures NetsAt(entries, section, kept, starts)
  {
    var blocks := NetBlocks(section, kept);
    starts := FlatStarts(entries, i, blocks);
    assert forall k {:trigger starts[k]} :: 0 <= k < |kept| ==> Block(entries, starts[k], blocks[k]);
  }

  /** The section that is next. */
  method LoadNext(fs: FileIo, count: nat, list: Nets, ghost kept: seq<Net>, ghost starts: seq<nat>)
    requires Loading(fs) && fs.Top() == LastName(count, NAME_WIDTH) && |fs.prefix| + 1 < MAX_PREFIX_TAGS
    requires NetsAt(fs.entries, fs.prefix, kept, starts) && count < |kept|
    requires list.Valid()
    modifies fs`prefix, fs`prev, fs`foundOnDisk, fs`stream, fs`eof, fs`pos, fs`diskTag, fs`diskType, fs`diskUsed
    modifies list, list.repr`next, list.repr`prev
    ensures Loading(fs) && fs.prefix == old(fs.prefix) && fs.Top() == LastName(count + 1, NAME_WIDTH)
    ensures list.Valid() && fresh(list.repr - old(list.repr)) && list.nets == Inserted(old(list.nets), kept[count])
  {
    assert starts[count] >= 0;
    var authType, ips, ipMask := LoadNth(fs, count, kept, starts);
    AddLoaded(list, authType, ips, ipMask, kept[count]);
  }

  method LoadNth(fs: FileIo, count: nat, ghost kept: seq<Net>, ghost starts: seq<nat>)
    returns (authType: int, ips: Address, ipMask: Mask)
    requires Loading(fs) && fs.Top() == LastName(count, NAME_WIDTH) && |fs.prefix| + 1 < MAX_PREFIX_TAGS
    requires NetsAt(fs.entries, fs.prefix, kept, starts) && count < |kept|
    modifies fs`prefix, fs`prev, fs`foundOnDisk, fs`stream, fs`eof, fs`pos, fs`diskTag, fs`diskType, fs`diskUsed
    ensures Loading(fs) && fs.prefix == old(fs.prefix) && fs.Top() == LastName(count + 1, NAME_WIDTH)
    ensures authType == kept[count].authType && ips == kept[count].ips && ipMask == kept[count].ipMask
  {
    NextName(count, NAME_WIDTH);
    assert starts[count] >= 0;
    authType, ips, ipMask := LoadSection(fs, Pad(count + 1, NAME_WIDTH), kept[count], starts[count]);
  }

  /** The loop over the sections. */
  method LoadEach(fs: FileIo, numberOf: nat, list: Nets, ghost kept: seq<Net>, ghost starts: seq<nat>)
    requires Loading(fs) && fs.Top() == "" && |fs.prefix| + 1 < MAX_PREFIX_TAGS
    requires NetsAt(fs.entries, fs.prefix, kept, starts) && numberOf == |kept|
    requires list.Valid() && list.nets == []
    modifies fs`prefix, fs`prev, fs`foundOnDisk, fs`stream, fs`eof, fs`pos, fs`diskTag, fs`diskType, fs`diskUsed
    modifies list, list.repr`next, list.repr`prev
    ensures Loading(fs) && fs.prefix == old(fs.prefix)
    ensures list.Valid() && fresh(list.repr - old(list.repr)) && list.nets == AddedAll(kept)
  {
    var count := 0;
    while count < numberOf
      invariant count <= numberOf && Loading(fs) && fs.prefix == old(fs.prefix)
      invariant fs.Top() == LastName(count, NAME_WIDTH)
      invariant list.Valid() && fresh(list.repr - old(list.repr)) && list.nets == AddedAll(kept[..count])
    {
      assert kept[..count + 1][..count] == kept[..count];
      LoadNext(fs, count, list, kept, starts);
      count := count + 1;
    }
    assert kept[..count] == kept;
  }

  method LoadHeader(fs: FileIo, ghost n: nat, ghost i: nat) returns (number: nat)
    requires Loading(fs) && fs.Top() == "" && |fs.prefix| < MAX_PREFIX_TAGS && n <= UINT_MAX
    requires i < |fs.entries| && fs.entries[i] == NumberEntry(fs.prefix + ["header"], "number", UINT, n)
    modifies fs`prefix, fs`prev, fs`foundOnDisk, fs`stream, fs`eof, fs`pos, fs`diskTag, fs`diskType, fs`diskUsed
    ensures Loading(fs) && fs.prefix == old(fs.prefix) && fs.Top() == "header" && number == n
  {
    fs.FileSectionBeg("header");
    number := GetNumber(fs, "number", UINT, 0, UINT_MAX, n, i);
    fs.FileSectionEnd("header");
  }

  method LoadNetsSection(fs: FileIo, numberOf: nat, list: Nets, ghost kept: seq<Net>, ghost starts: seq<nat>)
    requires Loading(fs) && StrLt(fs.Top(), "nets") && |fs.prefix| + 2 < MAX_PREFIX_TAGS
    requires NetsAt(fs.entries, fs.prefix + ["nets"], kept, starts) && numberOf == |kept|
    requires list.Valid() && list.nets == []
    modifies fs`prefix, fs`prev, fs`foundOnDisk, fs`stream, fs`eof, fs`pos, fs`diskTag, fs`diskType, fs`diskUsed
    modifies list, list.repr`next, list.repr`prev
    ensures Loading(fs) && fs.prefix == old(fs.prefix) && fs.Top() == "nets"
    ensures list.Valid() && fresh(list.repr - old(list.repr)) && list.nets == AddedAll(kept)
  {
    LoadOpenSection(fs, numberOf, list, kept, starts);
    fs.FileSectionEnd("nets");
  }

  /** The section up to its end. */
  method LoadOpenSection(fs: FileIo, numberOf: nat, list: Nets, ghost kept: seq<Net>, ghost starts: seq<nat>)
    requires Loading(fs) && StrLt(fs.Top(), "nets") && |fs.prefix| + 2 < MAX_PREFIX_TAGS
    requires NetsAt(fs.entries, fs.prefix + ["nets"], kept, starts) && numberOf == |kept|
    requires list.Valid() && list.nets == []
    modifies fs`prefix, fs`prev, fs`foundOnDisk, fs`stream, fs`eof, fs`pos, fs`diskTag, fs`diskType, fs`diskUsed
    modifies list, list.repr`next, list.repr`prev
    ensures Loading(fs) && fs.prefix == old(fs.prefix) + ["nets"]
    ensures list.Valid() && fresh(list.repr - old(list.repr)) && list.nets == AddedAll(kept)
  {
    fs.FileSectionBeg("nets");
    LoadEach(fs, numberOf, list, kept, starts);
  }

  /** Where the parts of the network section stand in the file. */
  predicate FileAt(entries: seq<Entry>, i: nat, section: Path, kept: seq<Net>, starts: seq<nat>) {
    && i < |entries| && entries[i] == NumberEntry(section + ["header"], "number", UINT, |kept|)
    && NetsAt(entries, section + ["nets"], kept, starts)
  }

  lemma FileIsAt(entries: seq<Entry>, i: nat, section: Path, nets: seq<Net>) returns (starts: seq<nat>)
    requires Block(entries, i, NetFile(section, nets)) && Kept(Permanent(nets))
    requires |Permanent(nets)| < Pow10(NAME_WIDTH)
    ensures FileAt(entries, i, section, Permanent(nets), starts)
  {
    var kept := Permanent(nets);
    var header := NumberEntry(section + ["header"], "number", UINT, |kept|);
    BlockPart(entries, i, [header], NetsEntries(section + ["nets"], kept));
    BlockAt(entries, i, [header], 0);
    starts := NetStarts(entries, i + 1, section + ["nets"], kept);
  }

  method LoadInside(fs: FileIo, ghost kept: seq<Net>, ghost i: nat, ghost starts: seq<nat>) returns (list: Nets)
    requires Loading(fs) && fs.Top() == "" && |fs.prefix| + 2 < MAX_PREFIX_TAGS
    requires FileAt(fs.entries, i, fs.prefix, kept, starts)
    modifies fs`prefix, fs`prev, fs`foundOnDisk, fs`stream, fs`eof, fs`pos, fs`diskTag, fs`diskType, fs`diskUsed
    ensures Loading(fs) && fs.prefix == old(fs.prefix)
    ensures list.Valid() && list.nets == AddedAll(kept) && fresh(list)
  {
    list := new Nets();
    var numberOf := LoadHeader(fs, |kept|, i);
    LoadNetsSection(fs, numberOf, list, kept, starts);
  }

  /** The network part of `auth_player_load`, wherever in the file it is. */
  method LoadNetFile(fs: FileIo, ghost kept: seq<Net>, ghost i: nat, ghost starts: seq<nat>) returns (list: Nets)
    requires Loading(fs) && StrLt(fs.Top(), "net") && |fs.prefix| + 3 < MAX_PREFIX_TAGS
    requires FileAt(fs.entries, i, fs.prefix + ["net"], kept, starts)
    modifies fs`prefix, fs`prev, fs`foundOnDisk, fs`stream, fs`eof, fs`pos, fs`diskTag, fs`diskType, fs`diskUsed
    ensures Loading(fs) && fs.prefix == old(fs.prefix)
    ensures list.Valid() && list.nets == AddedAll(kept) && fresh(list)
  {
    list := LoadOpenFile(fs, kept, i, starts);
    fs.FileSectionEnd("net");
  }

  method LoadOpenFile(fs: FileIo, ghost kept: seq<Net>, ghost i: nat, ghost starts: seq<nat>) returns (list: Nets)
    requires Loading(fs) && StrLt(fs.Top(), "net") && |fs.prefix| + 3 < MAX_PREFIX_TAGS
    requires FileAt(fs.entries, i, fs.prefix + ["net"], kept, starts)
    modifies fs`prefix, fs`prev, fs`foundOnDisk, fs`stream, fs`eof, fs`pos, fs`diskTag, fs`diskType, fs`diskUsed
    ensures Loading(fs) && fs.prefix == old(fs.prefix) + ["net"]
    ensures list.Valid() && list.nets == AddedAll(kept) && fresh(list)
  {
    fs.FileSectionBeg("net");
    list := LoadInside(fs, kept, i, starts);
  }

  lemma {:induction false} PermanentKept(nets: seq<Net>)
    requires AllMasked(nets) && forall i :: 0 <= i < |nets| ==> Storable(nets[i])
    ensures Kept(Permanent(nets))
    decreases |nets|
  {
    if nets != [] {
      PermanentKept(nets[1..]);
      var p, q := Permanent(nets), Permanent(nets[1..]);
      forall i | 0 <= i < |p|
        ensures !p[i].tmp && Storable(p[i]) && Masked(p[i].ips, p[i].ipMask) == p[i].ips
      {
        if nets[0].tmp {
          assert p[i] == q[i];
        } else if i > 0 {
          assert p[i] == q[i - 1];
        }
      }
    }
  }

  lemma NetReadable(section: Path, net: Net)
    requires ShortNames(section)
    ensures Readable(NetEntries(section, net))
  {
    var ip := section + ["ip_addr"];
    ShortSnoc(section, "ip_addr");
    forall tag | tag in ["1", "2", "3", "4"]
      ensures ShortNames(ip + [tag])
    {
      ShortSnoc(ip, tag);
    }
    ReadableOne(section, "auth_type", SHORT, Signed(net.authType));
    ReadableOne(section, "ip_mask", SHORT, Signed(net.ipMask));
    assert Readable(IpEntries(ip, net.ips));
    ReadableBoth([NumberEntry(section, "auth_type", SHORT, net.authType)], IpEntries(ip, net.ips));
    ReadableBoth([NumberEntry(section, "auth_type", SHORT, net.authType)] + IpEntries(ip, net.ips),
                 [NumberEntry(section, "ip_mask", SHORT, net.ipMask)]);
  }

  lemma NetsReadable(section: Path, kept: seq<Net>)
    requires ShortNames(section) && |kept| < Pow10(NAME_WIDTH)
    ensures Readable(NetsEntries(section, kept))
  {
    var blocks := NetBlocks(section, kept);
    forall k | 0 <= k < |blocks|
      ensures Readable(blocks[k])
    {
      ShortNumber(section, k + 1, NAME_WIDTH);
      NetReadable(section + [Pad(k + 1, NAME_WIDTH)], kept[k]);
    }
    ReadableFlat(blocks);
  }

  /** No name that is written is too long for the reader. */
  lemma FileReadable(section: Path, nets: seq<Net>)
    requires ShortNames(section) && |Permanent(nets)| < Pow10(NAME_WIDTH)
    ensures Readable(NetFile(section, nets))
  {
    var header := NumberEntry(section + ["header"], "number", UINT, |Permanent(nets)|);
    ShortSnoc(section, "header");
    ShortSnoc(section, "nets");
    ReadableOne(section + ["header"], "number", UINT, header.data);
    NetsReadable(section + ["nets"], Permanent(nets));
    ReadableBoth([header], NetsEntries(section + ["nets"], Permanent(nets)));
  }

  /** A file that holds only the network part. */
  method SaveFile(list: Nets, fileVersion: int) returns (bytes: string, ghost content: File, ghost starts: seq<nat>)
    requires list.Valid() && forall i :: 0 <= i < |list.nets| ==> Storable(list.nets[i])
    requires |Permanent(list.nets)| < Pow10(NAME_WIDTH) && INT_MIN <= fileVersion <= INT_MAX
    ensures bytes == Bytes(content) && content != [] && content[0] == VersionEntry(fileVersion) && Readable(content)
    ensures FileAt(content, 1, ["net"], Permanent(list.nets), starts)
  {
    PermanentKept(list.nets);
    var fs := WriteOpen(fileVersion);
    SaveNetFile(fs, list);
    bytes, content := fs.stream, fs.entries;
    assert [] + ["net"] == ["net"];
    FileReadable(["net"], list.nets);
    VersionReadable(fileVersion, NetFile(["net"], list.nets));
    WholeBlock([VersionEntry(fileVersion)], NetFile(["net"], list.nets));
    starts := FileIsAt(content, 1, ["net"], list.nets);
  }

  method LoadFile(bytes: string, ghost content: File, ghost starts: seq<nat>, ghost fileVersion: int,
                  ghost kept: seq<Net>)
    returns (list: Nets)
    requires bytes == Bytes(content) && content != [] && content[0] == VersionEntry(fileVersion) && Readable(content)
    requires INT_MIN <= fileVersion <= INT_MAX && FileAt(content, 1, ["net"], kept, starts)
    ensures list.Valid() && list.nets == AddedAll(kept)
  {
    var io := ReadOpen(bytes, content, fileVersion);
    assert [] + ["net"] == ["net"];
    list := LoadNetFile(io, kept, 1, starts);
  }

  /** A list that is saved and loaded comes back with its permanent networks, those of equal
      masks in the opposite order; `Reloaded` says what that does to the answers. */
  method SaveAndLoad(list: Nets, fileVersion: int) returns (again: Nets)
    requires list.Valid() && forall i :: 0 <= i < |list.nets| ==> Storable(list.nets[i])
    requires |Permanent(list.nets)| < Pow10(NAME_WIDTH) && INT_MIN <= fileVersion <= INT_MAX
    ensures again.Valid() && again.nets == AddedAll(Permanent(list.nets))
    ensures forall ips :: NoneTemporary(list.nets, ips) ==>
      (Answer(again.nets, ips) == Answer(list.nets, ips) <==>
       Answer(Permanent(list.nets), ips) == LastAnswer(Permanent(list.nets), ips))
  {
    var bytes;
    ghost var content, starts;
    bytes, content, starts := SaveFile(list, fileVersion);
    again := LoadFile(bytes, content, starts, fileVersion, Permanent(list.nets));
    forall ips | NoneTemporary(list.nets, ips)
      ensures Answer(again.nets, ips) == Answer(list.nets, ips) <==>
        Answer(Permanent(list.nets), ips) == LastAnswer(Permanent(list.nets), ips)
    {
      Reloaded(list.nets, ips);
    }
  }
}

/** A player's aliases, or those of a library: a doubly linked list sorted by command. */
module AliasList {
  import opened Options
  import opened CStrings
  import opened Links

  const ALIAS_COMMAND_SZ := 32
  const ALIAS_STR_SZ := 512

  /** All that an alias holds besides its name and its links. */
  datatype Body = Body(str: string, comment: Option<string>, commandType: nat, flags: Flags)

  datatype Flags = Flags(noBegSpace: bool, disabled: bool, cleverMatch: bool, expandMatch: bool, hidden: bool,
                         useName: bool, inSubCommand: bool, inSubCommandOnly: bool, public: bool, prived: bool)

  datatype Alias = Alias(command: string, body: Body)

  // ---------------------------------------------------------------- sorted lists and maps

  predicate Ascending(es: seq<Alias>) {
    |es| >= 2 ==> StrLt(es[0].command, es[1].command) && Ascending(es[1..])
  }

  function Table(es: seq<Alias>): map<string, Body> {
    if es == [] then map[] else Table(es[1..])[es[0].command := es[0].body]
  }

  lemma {:induction false} AscendingAt(es: seq<Alias>, i: nat, j: nat)
    requires Ascending(es) && i < j < |es|
    ensures StrLt(es[i].command, es[j].command) && !StrLt(es[j].command, es[i].command)
    ensures es[i].command != es[j].command
    decreases j
  {
    StrLtTrichotomy(es[i].command, es[j].command);
    if i > 0 {
      AscendingAt(es[1..], i - 1, j - 1);
    } else if j > 1 {
      AscendingAt(es[1..], 0, j - 1);
      StrLtTransitive(es[0].command, es[1].command, es[j].command);
    }
  }

  lemma {:induction false} AscendingInsert(es: seq<Alias>, p: nat, e: Alias)
    requires Ascending(es) && p <= |es|
    requires p > 0 ==> StrLt(es[p - 1].command, e.command)
    requires p < |es| ==> StrLt(e.command, es[p].command)
    ensures Ascending(es[..p] + [e] + es[p..])
    decreases p
  {
    var r := es[..p] + [e] + es[p..];
    if p == 0 {
      assert r[1..] == es;
    } else {
      AscendingInsert(es[1..], p - 1, e);
      assert r[1..] == es[1..][..p - 1] + [e] + es[1..][p - 1..];
    }
  }

  lemma {:induction false} AscendingRemove(es: seq<Alias>, p: nat)
    requires Ascending(es) && p < |es|
    ensures Ascending(es[..p] + es[p + 1..])
    decreases p
  {
    var r := es[..p] + es[p + 1..];
    if p == 0 {
      assert r == es[1..];
    } else {
      AscendingRemove(es[1..], p - 1);
      assert r[1..] == es[1..][..p - 1] + es[1..][p..];
      if |r| >= 2 {
        AscendingAt(es, 0, if p == 1 then 2 else 1);
      }
    }
  }

  /** What the table holds is what stands in the list. */
  lemma {:induction false} TableAt(es: seq<Alias>, i: nat)
    requires Ascending(es) && i < |es|
    ensures es[i].command in Table(es) && Table(es)[es[i].command] == es[i].body
    decreases i
  {
    if i > 0 {
      TableAt(es[1..], i - 1);
      AscendingAt(es, 0, i);
    }
  }

  lemma {:induction false} TableIndex(es: seq<Alias>, c: string) returns (i: nat)
    requires c in Table(es)
    ensures i < |es| && es[i].command == c
  {
    if es[0].command == c {
      i := 0;
    } else {
      i := TableIndex(es[1..], c);
      i := i + 1;
    }
  }

  lemma {:induction false} TableMisses(es: seq<Alias>, c: string)
    requires forall i :: 0 <= i < |es| ==> es[i].command != c
    ensures c !in Table(es)
  {
    if c in Table(es) {
      var i := TableIndex(es, c);
    }
  }

  /** A name between two neighbours is not in the list. */
  lemma NotThere(es: seq<Alias>, p: nat, c: string)
    requires Ascending(es) && p <= |es|
    requires p > 0 ==> StrLt(es[p - 1].command, c)
    requires p < |es| ==> StrLt(c, es[p].command)
    ensures c !in Table(es)
  {
    forall i | 0 <= i < |es|
      ensures es[i].command != c
    {
      StrLtTrichotomy(es[i].command, c);
      if i < p - 1 {
        AscendingAt(es, i, p - 1);
        StrLtTransitive(es[i].command, es[p - 1].command, c);
      } else if i > p {
        AscendingAt(es, p, i);
        StrLtTransitive(c, es[p].command, es[i].command);
      }
    }
    TableMisses(es, c);
  }

  lemma {:induction false} TableInsert(es: seq<Alias>, p: nat, e: Alias)
    requires p <= |es| && e.command !in Table(es)
    ensures Table(es[..p] + [e] + es[p..]) == Table(es)[e.command := e.body]
    decreases p
  {
    var r := es[..p] + [e] + es[p..];
    if p == 0 {
      assert r[1..] == es;
    } else {
      TableInsert(es[1..], p - 1, e);
      assert r[1..] == es[1..][..p - 1] + [e] + es[1..][p - 1..];
    }
  }

  lemma {:induction false} TableRemove(es: seq<Alias>, p: nat)
    requires Ascending(es) && p < |es|
    ensures Table(es[..p] + es[p + 1..]) == Table(es) - {es[p].command}
    decreases p
  {
    var r := es[..p] + es[p + 1..];
    if p == 0 {
      assert r == es[1..];
      NotBehind(es);
    } else {
      TableRemove(es[1..], p - 1);
      AscendingAt(es, 0, p);
      assert r[1..] == es[1..][..p - 1] + es[1..][p..];
    }
  }

  lemma Taken(es: seq<Alias>, k: nat)
    requires Ascending(es) && k < |es|
    ensures es[k].command in Table(es) && Table(es)[es[k].command] == es[k].body
    ensures Table(Without(es, k)) == Table(es) - {es[k].command}
  {
    TableAt(es, k);
    TableRemove(es, k);
  }

  lemma {:induction false} NotBehind(es: seq<Alias>)
    requires Ascending(es) && es != []
    ensures es[0].command !in Table(es[1..])
  {
    forall i | 0 <= i < |es[1..]|
      ensures es[1..][i].command != es[0].command
    {
      AscendingAt(es, 0, i + 1);
    }
    TableMisses(es[1..], es[0].command);
  }

  /** A sorted list is no more and no less than its table. */
  lemma {:induction false} OneListATable(es: seq<Alias>, fs: seq<Alias>)
    requires Ascending(es) && Ascending(fs) && Table(es) == Table(fs)
    ensures es == fs
    decreases |es|
  {
    if es == [] {
      if fs != [] {
        TableAt(fs, 0);
      }
    } else {
      TableAt(es, 0);
      SameHead(es, fs);
      NotBehind(es);
      NotBehind(fs);
      assert Table(es[1..]) == Table(es) - {es[0].command} == Table(fs[1..]);
      OneListATable(es[1..], fs[1..]);
    }
  }

  lemma SameHead(es: seq<Alias>, fs: seq<Alias>)
    requires Ascending(es) && Ascending(fs) && Table(es) == Table(fs) && es != []
    ensures fs != [] && es[0] == fs[0]
  {
    TableAt(es, 0);
    var i := TableIndex(fs, es[0].command);
    TableAt(fs, 0);
    var j := TableIndex(es, fs[0].command);
    if i > 0 {
      AscendingAt(fs, 0, i);
      if j > 0 {
        AscendingAt(es, 0, j);
      }
    }
  }

  lemma {:induction false} TableSize(es: seq<Alias>)
    requires Ascending(es)
    ensures |Table(es)| == |es|
    decreases |es|
  {
    if es != [] {
      TableSize(es[1..]);
      NotBehind(es);
    }
  }

  // ---------------------------------------------------------------- the commands, on tables

  /** `%.*s` with ALIAS_COMMAND_SZ - 1 */
  function Command(name: string): string {
    if |name| >= ALIAS_COMMAND_SZ then name[..ALIAS_COMMAND_SZ - 1] else name
  }

  /** `strchr` for a space */
  predicate HasSpace(s: string) {
    s != "" && (s[0] == ' ' || HasSpace(s[1..]))
  }

  /** A name that neither `add` nor `del` takes. */
  predicate Escaped(name: string) {
    name != "" && name[0] == '\\'
  }

  const NO_FLAGS := Flags(false, false, false, false, false, false, false, false, false, false)

  /** What `alias_new_insert` gives a new alias. */
  function NewBody(str: string): Body {
    Body(if |str| >= ALIAS_STR_SZ then str[..ALIAS_STR_SZ - 1] else str, None, 0, NO_FLAGS)
  }

  /** What `user_alias_copy` gives it: the flag of the leading space is taken from the public flag. */
  function CopiedBody(source: Body): Body {
    NewBody(source.str).(flags := source.flags.(noBegSpace := source.flags.public, public := false, prived := false))
  }

  datatype Request =
    | Add(name: string, str: string, maxAliases: int)
    | Copy(source: Alias, maxAliases: int)
    | Delete(name: string)
    | Rename(oldName: string, newName: string)

  /** The table after one command. */
  function After(t: map<string, Body>, request: Request): map<string, Body> {
    match request
    case Add(name, str, maxAliases) =>
      if Escaped(name) || |t| + 1 > maxAliases || |name| >= ALIAS_COMMAND_SZ || HasSpace(name) || name in t then t
      else t[name := NewBody(str)]
    case Copy(source, maxAliases) =>
      if |t| + 1 > maxAliases || Command(source.command) in t then t
      else t[Command(source.command) := CopiedBody(source.body)]
    case Delete(name) => if Escaped(name) then t else t - {name}
    case Rename(oldName, newName) =>
      if oldName !in t || (Command(newName) in t && Command(newName) != oldName) then t
      else (t - {oldName})[Command(newName) := t[oldName]]
  }

  function AfterAll(t: map<string, Body>, requests: seq<Request>): map<string, Body> {
    if requests == [] then t
    else After(AfterAll(t, requests[..|requests| - 1]), requests[|requests| - 1])
  }

  // ---------------------------------------------------------------- what the commands store

  /** A text as it is kept: whole, or its first 511 characters. */
  predicate KeptText(kept: string, str: string) {
    if |str| < 512 then kept == str else |kept| == 511 && kept <= str
  }

  /** A name that can be added: short enough, new, without a space or a backslash in front. */
  predicate Addable(t: map<string, Body>, name: string, max: int) {
    && |t| < max && name !in t && |name| <= 31
    && (name != "" ==> name[0] != '\\')
    && forall i :: 0 <= i < |name| ==> name[i] != ' '
  }

  /** All other names keep what they had. */
  predicate OthersKept(t: map<string, Body>, u: map<string, Body>, name: string) {
    u.Keys == t.Keys + {name} && forall n :: n in t && n != name ==> u[n] == t[n]
  }

  lemma {:induction false} SpaceIff(s: string)
    ensures HasSpace(s) <==> exists i :: 0 <= i < |s| && s[i] == ' '
  {
    if s != "" {
      SpaceIff(s[1..]);
      assert s == [s[0]] + s[1..];
    }
  }

  /** A new alias has its text and nothing else: no comment, no type, and every flag off. */
  predicate JustAdded(b: Body, str: string) {
    var f := b.flags;
    && KeptText(b.str, str) && b.comment == None && b.commandType == 0
    && !f.noBegSpace && !f.disabled && !f.cleverMatch && !f.expandMatch && !f.hidden && !f.useName
    && !f.inSubCommand && !f.inSubCommandOnly && !f.public && !f.prived
  }

  lemma Added(t: map<string, Body>, name: string, str: string, max: int)
    ensures var u := After(t, Add(name, str, max));
      if Addable(t, name, max) then OthersKept(t, u, name) && JustAdded(u[name], str) else u == t
  {
    SpaceIff(name);
  }

  /** A copy has the text and the flags of its source, except that nothing is public or prived,
      and whether there is no space at the beginning is what was public. */
  predicate JustCopied(b: Body, source: Body) {
    var f, g := b.flags, source.flags;
    && KeptText(b.str, source.str) && b.comment == None && b.commandType == 0
    && f.noBegSpace == g.public && !f.public && !f.prived
    && f.disabled == g.disabled && f.cleverMatch == g.cleverMatch && f.expandMatch == g.expandMatch
    && f.hidden == g.hidden && f.useName == g.useName
    && f.inSubCommand == g.inSubCommand && f.inSubCommandOnly == g.inSubCommandOnly
  }

  /** A name as it is kept: whole, or its first 31 characters. */
  predicate KeptName(kept: string, name: string) {
    if |name| < 32 then kept == name else |kept| == 31 && kept <= name
  }

  lemma Copied(t: map<string, Body>, source: Alias, max: int, name: string)
    requires KeptName(name, source.command)
    ensures var u := After(t, Copy(source, max));
      if |t| < max && name !in t then OthersKept(t, u, name) && JustCopied(u[name], source.body) else u == t
  {
    assert name == Command(source.command);
  }

  /** A renamed alias is the same under its new name; every other alias stays. */
  lemma Renamed(t: map<string, Body>, oldName: string, newName: string, name: string)
    requires KeptName(name, newName) && oldName in t
    ensures var u := After(t, Rename(oldName, newName));
      if name in t && name != oldName then u == t
      else
        && name in u && u[name] == t[oldName] && u.Keys == t.Keys - {oldName} + {name}
        && forall n :: n in t && n != oldName ==> n in u && u[n] == t[n]
  {
    assert name == Command(newName);
  }

  /** A deleted alias is gone and every other one stays; a name with a backslash in front does not go. */
  lemma Deleted(t: map<string, Body>, name: string)
    ensures var u := After(t, Delete(name));
      && (name in u <==> name in t && name != "" && name[0] == '\\')
      && forall n :: n != name ==> (n in u <==> n in t) && (n in t ==> u[n] == t[n])
  {
  }

  // ---------------------------------------------------------------- the linked list

  predicate Short(es: seq<Alias>) {
    forall i :: 0 <= i < |es| ==> |es[i].command| < ALIAS_COMMAND_SZ
  }

  lemma ShortWith(es: seq<Alias>, p: nat, e: Alias)
    requires Short(es) && p <= |es| && |e.command| < ALIAS_COMMAND_SZ
    ensures Short(With(es, p, e))
  {
  }

  lemma ShortWithout(es: seq<Alias>, k: nat)
    requires Short(es) && k < |es|
    ensures Short(Without(es, k))
  {
  }

  class AliasList {
    var head: Node?<Alias>
    var number: nat

    // the nodes from the head on, what they hold, and the objects in use
    ghost var nodes: seq<Node<Alias>>
    ghost var entries: seq<Alias>
    ghost var repr: set<Node<Alias>>

    constructor ()
      ensures Valid() && entries == [] && repr == {}
    {
      head, number, nodes, entries, repr := null, 0, [], [], {};
    }

    /** `next` and `prev` mirror each other along the list. */
    ghost predicate Linked()
      reads this`head, this`nodes, nodes`next, nodes`prev
    {
      head == At(nodes, 0) && Forward(nodes) && Backward(nodes)
    }

    ghost predicate Listed()
      reads this`head, this`nodes, this`entries, nodes
    {
      Holds(nodes, entries) && Linked() && Ascending(entries)
    }

    ghost predicate Kept()
      reads this`head, this`nodes, this`entries, this`repr, repr
    {
      Within(nodes, repr) && Short(entries) && Listed()
    }

    /** The list is sorted and linked both ways, and `number` counts it. */
    ghost predicate Valid()
      reads this, repr
    {
      Kept() && number == |entries|
    }

    /** No node stands in the list twice. */
    lemma Distinct(k: nat)
      requires Holds(nodes, entries) && Ascending(entries) && k < |nodes|
      ensures forall i :: 0 <= i < |nodes| && i != k ==> nodes[i] != nodes[k]
    {
      forall i | 0 <= i < |nodes| && i != k
        ensures nodes[i] != nodes[k]
      {
        AscendingAt(entries, if i < k then i else k, if i < k then k else i);
      }
    }

    /** The loop of `alias_find`: the first node that is not below the command. */
    method Scan(command: string) returns (scan: Node?<Alias>, ghost k: nat)
      requires Listed()
      ensures k <= |nodes| && scan == At(nodes, k)
      ensures forall i :: 0 <= i < k ==> StrLt(entries[i].command, command)
      ensures k < |nodes| ==> !StrLt(entries[k].command, command)
    {
      scan, k := head, 0;
      while scan != null && StrCmp(command, scan.value.command) > 0
        invariant k <= |nodes| && scan == At(nodes, k)
        invariant forall i :: 0 <= i < k ==> StrLt(entries[i].command, command)
        decreases |nodes| - k
      {
        scan, k := scan.next, k + 1;
      }
    }

    /** `alias_find` */
    method Find(command: string) returns (found: Node?<Alias>, ghost k: nat)
      requires Listed()
      ensures found != null <==> command in Table(entries)
      ensures found != null ==> k < |nodes| && found == nodes[k] && entries[k].command == command
    {
      found, k := Scan(command);
      if found != null && StrCmp(command, found.value.command) == 0 {
        TableAt(entries, k);
      } else {
        found := null;
        forall i | 0 <= i < |entries|
          ensures entries[i].command != command
        {
          StrLtTrichotomy(entries[i].command, command);
          if k < i {
            AscendingAt(entries, k, i);
            StrLtTrichotomy(command, entries[k].command);
            StrLtTransitive(command, entries[k].command, entries[i].command);
          }
        }
        TableMisses(entries, command);
      }
    }

    /** The new node stands at position p, between nodes already linked to it. */
    ghost predicate Between(newNode: Node<Alias>, p: nat)
      reads this`head, this`nodes, newNode`next, newNode`prev, nodes`next, nodes`prev
    {
      && newNode.next == At(nodes, p) && newNode.prev == At(nodes, p - 1)
      && ForwardTo(nodes, p, newNode) && BackwardTo(nodes, p, newNode)
      && head == if p == 0 then newNode else At(nodes, 0)
    }

    ghost method Placed(newNode: Node<Alias>, p: nat)
      requires Holds(nodes, entries) && Ascending(entries) && p <= |nodes| && Between(newNode, p)
      requires p > 0 ==> StrLt(entries[p - 1].command, newNode.value.command)
      requires p < |nodes| ==> StrLt(newNode.value.command, entries[p].command)
      modifies this`nodes, this`entries
      ensures Listed()
      ensures nodes == With(old(nodes), p, newNode)
      ensures entries == With(old(entries), p, newNode.value)
    {
      var ns, e := With(nodes, p, newNode), newNode.value;
      AscendingInsert(entries, p, e);
      ForwardWith(nodes, p, newNode, ns);
      BackwardWith(nodes, p, newNode, ns);
      HoldsWith(nodes, entries, p, newNode);
      nodes, entries := ns, With(entries, p, e);
    }

    method LinkBehind(newNode: Node<Alias>, insert: Node<Alias>, ghost k: nat)
      requires Listed() && Outside(nodes, newNode) && k < |nodes| && insert == nodes[k]
      modifies newNode`next, newNode`prev, nodes`next, nodes`prev
      ensures Between(newNode, k + 1)
    {
      Distinct(k);
      if k + 1 < |nodes| {
        Distinct(k + 1);
      }
      newNode.next := insert.next;
      if newNode.next != null {
        newNode.next.prev := newNode;
      }
      newNode.prev := insert;
      insert.next := newNode;
    }

    method LinkBefore(newNode: Node<Alias>, insert: Node<Alias>, ghost k: nat)
      requires Listed() && Outside(nodes, newNode) && k < |nodes| && insert == nodes[k]
      modifies this`head, newNode`next, newNode`prev, nodes`next, nodes`prev
      ensures Between(newNode, k)
    {
      Distinct(k);
      if k > 0 {
        Distinct(k - 1);
      }
      newNode.prev := insert.prev;
      if newNode.prev != null {
        newNode.prev.next := newNode;
      } else {
        head := newNode;
      }
      newNode.next := insert;
      insert.prev := newNode;
    }

    /** The loop of `alias_insert`, which does not leave the list at its last node. */
    method Place(command: string) returns (insert: Node<Alias>, ghost k: nat)
      requires Listed() && head != null
      ensures k < |nodes| && insert == nodes[k]
      ensures k + 1 == |nodes| || !StrLt(insert.value.command, command)
      ensures k > 0 ==> StrLt(nodes[k - 1].value.command, command)
    {
      insert, k := head, 0;
      while insert.next != null && StrCmp(command, insert.value.command) > 0
        invariant k < |nodes| && insert == nodes[k]
        invariant k > 0 ==> StrLt(nodes[k - 1].value.command, command)
        decreases |nodes| - k
      {
        insert, k := insert.next, k + 1;
      }
    }

    method LinkFirst(newNode: Node<Alias>)
      requires Listed() && nodes == []
      modifies this`head, newNode`next, newNode`prev
      ensures Between(newNode, 0)
    {
      head := newNode;
      newNode.next := null;
      newNode.prev := null;
    }

    /** `alias_insert`: it refuses a name that is taken, and otherwise keeps the order. */
    method Insert(newNode: Node<Alias>) returns (ok: bool, ghost p: nat)
      requires Listed() && Outside(nodes, newNode)
      modifies this`head, this`nodes, this`entries, newNode`next, newNode`prev, nodes`next, nodes`prev
      ensures Listed()
      ensures ok <==> newNode.value.command !in Table(old(entries))
      ensures ok ==> p <= |old(nodes)| && nodes == With(old(nodes), p, newNode)
      ensures ok ==> p <= |old(entries)| && entries == With(old(entries), p, newNode.value)
      ensures ok ==> Table(entries) == Table(old(entries))[newNode.value.command := newNode.value.body]
      ensures !ok ==> nodes == old(nodes) && entries == old(entries)
    {
      ok, p := Link(newNode);
      if ok {
        NotThere(entries, p, newNode.value.command);
        TableInsert(entries, p, newNode.value);
        Placed(newNode, p);
      }
    }

    method Link(newNode: Node<Alias>) returns (ok: bool, ghost p: nat)
      requires Listed() && Outside(nodes, newNode)
      modifies this`head, newNode`next, newNode`prev, nodes`next, nodes`prev
      ensures !ok ==> Listed() && newNode.value.command in Table(entries)
      ensures ok ==> p <= |entries| && Between(newNode, p)
      ensures ok && p > 0 ==> StrLt(entries[p - 1].command, newNode.value.command)
      ensures ok && p < |entries| ==> StrLt(newNode.value.command, entries[p].command)
    {
      p := 0;
      if head != null {
        var insert, k := Place(newNode.value.command);
        var cmp := StrCmp(newNode.value.command, insert.value.command);
        if cmp == 0 {
          TableAt(entries, k);
          return false, 0;
        }
        if cmp > 0 {
          p := k + 1;
          LinkBehind(newNode, insert, k);
        } else {
          p := k;
          LinkBefore(newNode, insert, k);
        }
      } else {
        LinkFirst(newNode);
      }
      ok := true;
    }

    method Unlink(tmp: Node<Alias>, ghost k: nat)
      requires Listed() && k < |nodes| && tmp == nodes[k]
      modifies this`head, nodes`next, nodes`prev
      ensures head == if k == 0 then At(nodes, 1) else At(nodes, 0)
      ensures ForwardPast(nodes, k) && BackwardPast(nodes, k)
    {
      if k > 0 {
        Distinct(k - 1);
      }
      if k + 1 < |nodes| {
        Distinct(k + 1);
      }
      if tmp.next != null {
        tmp.next.prev := tmp.prev;
      }
      if tmp.prev != null {
        tmp.prev.next := tmp.next;
      } else {
        head := tmp.next;
      }
    }

    ghost method Dropped(k: nat)
      requires Holds(nodes, entries) && Ascending(entries) && k < |nodes|
      requires Within(nodes, repr) && Short(entries)
      requires head == if k == 0 then At(nodes, 1) else At(nodes, 0)
      requires ForwardPast(nodes, k) && BackwardPast(nodes, k)
      modifies this`nodes, this`entries
      ensures Kept() && Outside(nodes, old(nodes)[k]) && entries == Without(old(entries), k)
    {
      Distinct(k);
      AscendingRemove(entries, k);
      ForwardWithout(nodes, k, Without(nodes, k));
      BackwardWithout(nodes, k, Without(nodes, k));
      ShortWithout(entries, k);
      WithinWithout(nodes, k, repr);
      nodes, entries := Without(nodes, k), Without(entries, k);
    }

    /** `alias_remove`: the node is taken out, and the rest stays in order. */
    method Remove(command: string) returns (tmp: Node?<Alias>)
      requires Kept()
      modifies this`head, this`nodes, this`entries, repr`next, repr`prev
      ensures Kept()
      ensures tmp != null <==> command in Table(old(entries))
      ensures tmp != null ==> tmp in repr && Outside(nodes, tmp)
      ensures tmp != null ==> tmp.value.command == command && |command| < ALIAS_COMMAND_SZ
      ensures tmp != null ==> Table(old(entries))[command] == tmp.value.body
      ensures Table(entries) == Table(old(entries)) - {command}
      ensures |entries| == if tmp == null then |old(entries)| else |old(entries)| - 1
    {
      ghost var k;
      tmp, k := Find(command);
      if tmp != null {
        Taken(entries, k);
        TakeOut(tmp, k);
      }
    }

    method TakeOut(tmp: Node<Alias>, ghost k: nat)
      requires Kept() && k < |nodes| && tmp == nodes[k]
      modifies this`head, this`nodes, this`entries, repr`next, repr`prev
      ensures Kept() && Outside(nodes, tmp) && entries == Without(old(entries), k)
    {
      Unlink(tmp, k);
      Dropped(k);
    }

    /** `alias_insert`, with what the list's owner keeps. */
    method PutBack(node: Node<Alias>) returns (ok: bool)
      requires Kept()
      requires Outside(nodes, node) && node in repr && |node.value.command| < ALIAS_COMMAND_SZ
      modifies this`head, this`nodes, this`entries, repr`next, repr`prev
      ensures Kept()
      ensures ok <==> node.value.command !in Table(old(entries))
      ensures |entries| == if ok then |old(entries)| + 1 else |old(entries)|
      ensures Table(entries) ==
        if ok then Table(old(entries))[node.value.command := node.value.body] else Table(old(entries))
      ensures !ok ==> Outside(nodes, node) && entries == old(entries)
    {
      ghost var p, ns, es := 0, nodes, entries;
      ok, p := Insert(node);
      if ok {
        WithinWith(ns, p, node, repr);
        assert repr + {node} == repr;
        ShortWith(es, p, node.value);
      }
    }

    /** `alias_new_insert`, and the flags its callers set. */
    method NewInsert(command: string, body: Body) returns (ok: bool)
      requires Kept()
      modifies this`head, this`nodes, this`entries, this`repr, repr`next, repr`prev
      ensures Kept() && fresh(repr - old(repr))
      ensures ok <==> Command(command) !in Table(old(entries))
      ensures |entries| == if ok then |old(entries)| + 1 else |old(entries)|
      ensures Table(entries) ==
        if ok then Table(old(entries))[Command(command) := body] else Table(old(entries))
    {
      var newNode := new Node(Alias(Command(command), body));
      repr := repr + {newNode};
      ok := PutBack(newNode);
    }

    /** `internal_user_alias_add` */
    method AddAlias(name: string, str: string, maxAliases: int) returns (ok: bool)
      requires Valid()
      modifies this, repr`next, repr`prev
      ensures Valid() && fresh(repr - old(repr))
      ensures Table(entries) == After(Table(old(entries)), Add(name, str, maxAliases))
      ensures ok <==> number == old(number) + 1
      ensures ok <==> Addable(Table(old(entries)), name, maxAliases)
      ensures ok ==> name in Table(entries) && JustAdded(Table(entries)[name], str)
    {
      TableSize(entries);
      SpaceIff(name);
      Added(Table(entries), name, str, maxAliases);
      if (name != "" && name[0] == '\\') || number + 1 > maxAliases || |name| >= ALIAS_COMMAND_SZ || HasSpace(name) {
        return false;
      }
      ok := NewInsert(name, NewBody(str));
      if ok {
        number := number + 1;
      }
    }

    /** `user_alias_copy`, once the alias to copy has been found. */
    method CopyAlias(source: Alias, maxAliases: int) returns (ok: bool)
      requires Valid() && !source.body.flags.prived
      modifies this, repr`next, repr`prev
      ensures Valid() && fresh(repr - old(repr))
      ensures Table(entries) == After(Table(old(entries)), Copy(source, maxAliases))
      ensures ok <==> number == old(number) + 1
    {
      TableSize(entries);
      if number + 1 > maxAliases {
        return false;
      }
      ok := NewInsert(source.command, CopiedBody(source.body));
      if ok {
        number := number + 1;
      }
    }

    /** `internal_alias_del` */
    method DeleteAlias(name: string) returns (ok: bool)
      requires Valid()
      modifies this, repr`next, repr`prev
      ensures Valid() && repr == old(repr)
      ensures Table(entries) == After(Table(old(entries)), Delete(name))
      ensures ok <==> number == old(number) - 1
    {
      if name != "" && name[0] == '\\' {
        return false;
      }
      var tmp := Remove(name);
      ok := tmp != null;
      if ok {
        number := number - 1;
      }
    }

    method SetCommand(node: Node<Alias>, command: string)
      requires Kept() && Outside(nodes, node)
      modifies node`value
      ensures Kept() && Outside(nodes, node)
      ensures node.value == old(node.value).(command := command)
    {
      node.value := node.value.(command := command);
    }

    /** `internal_alias_rename`: putting a node back under its old name never fails. */
    method RenameAlias(oldName: string, newName: string) returns (ok: bool)
      requires Valid()
      modifies this, repr`next, repr`prev, repr`value
      ensures Valid() && repr == old(repr) && number == old(number)
      ensures ok <==> oldName in Table(old(entries)) && Command(newName) !in Table(old(entries)) - {oldName}
      ensures Table(entries) == After(Table(old(entries)), Rename(oldName, newName))
    {
      ghost var t := Table(entries);
      var tmp := Remove(oldName);
      if tmp == null {
        assert t - {oldName} == t;
        return false;
      }
      RenameSteps(t, oldName, newName);
      SetCommand(tmp, Command(newName));
      ok := PutBack(tmp);
      if !ok {
        SetCommand(tmp, Command(oldName));
        var again := PutBack(tmp);
        assert again;
      }
    }

    method Perform(request: Request) returns (ok: bool)
      requires Valid() && (request.Copy? ==> !request.source.body.flags.prived)
      modifies this, repr`next, repr`prev, repr`value
      ensures Valid() && fresh(repr - old(repr))
      ensures Table(entries) == After(Table(old(entries)), request)
    {
      match request
      case Add(name, str, maxAliases) => ok := AddAlias(name, str, maxAliases);
      case Copy(source, maxAliases) => ok := CopyAlias(source, maxAliases);
      case Delete(name) => ok := DeleteAlias(name);
      case Rename(oldName, newName) => ok := RenameAlias(oldName, newName);
    }

    /** Any run of commands: the list is sorted, linked both ways and counted all the way, and
        ends as the table that the commands give. */
    method PerformAll(requests: seq<Request>)
      requires Valid()
      requires forall i :: 0 <= i < |requests| && requests[i].Copy? ==> !requests[i].source.body.flags.prived
      modifies this, repr`next, repr`prev, repr`value
      ensures Valid() && fresh(repr - old(repr))
      ensures Table(entries) == AfterAll(Table(old(entries)), requests)
    {
      ghost var t := Table(entries);
      var i := 0;
      assert AfterAll(t, requests[..0]) == t;
      while i < |requests|
        invariant i <= |requests| && Valid() && fresh(repr - old(repr))
        invariant Table(entries) == AfterAll(t, requests[..i])
      {
        var ok := Perform(requests[i]);
        assert requests[..i + 1][..i] == requests[..i];
        i := i + 1;
      }
      assert requests[..i] == requests;
    }
  }

  lemma RenameSteps(t: map<string, Body>, oldName: string, newName: string)
    requires oldName in t
    ensures After(t, Rename(oldName, newName)) ==
      if Command(newName) in t - {oldName} then t else (t - {oldName})[Command(newName) := t[oldName]]
    ensures (t - {oldName})[oldName := t[oldName]] == t
  {
  }

  // ---------------------------------------------------------------- what commands keep and undo

  /** No run of commands brings the number of aliases over the limit. */
  lemma {:induction false} LimitKept(t: map<string, Body>, requests: seq<Request>, max: int)
    requires |t| <= max
    requires forall i :: 0 <= i < |requests| ==>
      match requests[i]
      case Add(_, _, m) => m <= max
      case Copy(_, m) => m <= max
      case _ => true
    ensures |AfterAll(t, requests)| <= max
    decreases |requests|
  {
    if requests != [] {
      var front := requests[..|requests| - 1];
      LimitKept(t, front, max);
      SizeAfter(AfterAll(t, front), requests[|requests| - 1]);
    }
  }

  /** One command adds or takes away at most one alias, and a rename neither. */
  lemma SizeAfter(t: map<string, Body>, request: Request)
    ensures match request
      case Add(name, _, m) => |After(t, request)| == |t| || (|After(t, request)| == |t| + 1 <= m && name !in t)
      case Copy(_, m) => |After(t, request)| == |t| || |After(t, request)| == |t| + 1 <= m
      case Delete(name) => |After(t, request)| == |t| - if name in t && !Escaped(name) then 1 else 0
      case Rename(_, _) => |After(t, request)| == |t|
  {
    match request
    case Delete(name) => SizeWithout(t, name);
    case Rename(oldName, newName) => SizeWithout(t, oldName);
    case _ =>
  }

  lemma SizeWithout(t: map<string, Body>, name: string)
    ensures |t - {name}| == |t| - if name in t then 1 else 0
  {
    if name in t {
      assert t == (t - {name})[name := t[name]];
    } else {
      assert t - {name} == t;
    }
  }

  /** A rename that is carried out is undone by the opposite rename. */
  lemma RenameBack(t: map<string, Body>, a: string, b: string)
    requires a in t && Command(b) !in t && |a| < ALIAS_COMMAND_SZ
    ensures After(After(t, Rename(a, b)), Rename(Command(b), a)) == t
  {
    var u := (t - {a})[Command(b) := t[a]];
    assert After(t, Rename(a, b)) == u;
    assert (u - {Command(b)})[a := u[Command(b)]] == t;
  }

  /** An alias that is added can be deleted again. */
  lemma DeleteAdded(t: map<string, Body>, name: string, str: string, maxAliases: int)
    requires After(t, Add(name, str, maxAliases)) != t
    ensures After(After(t, Add(name, str, maxAliases)), Delete(name)) == t
  {
    assert t[name := NewBody(str)] - {name} == t;
  }

  predicate NeverRenamed(requests: seq<Request>, name: string) {
    forall i :: 0 <= i < |requests| && requests[i].Rename? ==> requests[i].oldName != name
  }

  /** No run of commands that does not rename it removes an alias whose name starts with a
      backslash. */
  lemma {:induction false} EscapedStays(t: map<string, Body>, requests: seq<Request>, name: string)
    requires name in t && Escaped(name) && NeverRenamed(requests, name)
    ensures name in AfterAll(t, requests)
    decreases |requests|
  {
    if requests != [] {
      var front, last := requests[..|requests| - 1], requests[|requests| - 1];
      assert requests == front + [last];
      EscapedStays(t, front, name);
      assert last.Rename? ==> last.oldName != name;
    }
  }

  /** An alias can be removed under its name exactly if that does not start with a backslash. */
  lemma RemovableIff(t: map<string, Body>, name: string)
    requires name in t
    ensures (exists requests :: NeverRenamed(requests, name) && name !in AfterAll(t, requests)) <==> !Escaped(name)
  {
    if Escaped(name) {
      forall requests | NeverRenamed(requests, name)
        ensures name in AfterAll(t, requests)
      {
        EscapedStays(t, requests, name);
      }
    } else {
      var requests := [Delete(name)];
      assert NeverRenamed(requests, name) && requests[..0] == [];
      assert AfterAll(t, requests) == After(t, Delete(name));
    }
  }

  /** But every alias can be renamed to a free name, and removed under that. */
  lemma RemovedAsAnother(t: map<string, Body>, name: string, other: string)
    requires name in t && other !in t && |other| < ALIAS_COMMAND_SZ && !Escaped(other)
    ensures AfterAll(t, [Rename(name, other), Delete(other)]) == t - {name}
  {
    var requests := [Rename(name, other), Delete(other)];
    assert requests[..1] == [Rename(name, other)] && requests[..1][..0] == [];
    var u := (t - {name})[other := t[name]];
    assert AfterAll(t, requests[..1]) == u;
    assert u - {other} == t - {name};
  }
}

/** Walking through a player's aliases and those of the libraries in use, by name: the heads of
    several sorted lists are advanced together.
 */
module AliasMerge {
  import opened Options
  import opened CStrings
  import opened AliasList

  // ---------------------------------------------------------------- what a walk has to give

  predicate Disabled(a: Alias) {
    a.body.flags.disabled
  }

  /** The alias of that name which a list offers: a disabled one is as good as none. */
  function Lookup(l: seq<Alias>, n: string): (r: Option<Alias>)
    ensures r.Some? ==> r.value.command == n && !Disabled(r.value)
  {
    if l == [] then None
    else if !Disabled(l[0]) && l[0].command == n then Some(l[0])
    else Lookup(l[1..], n)
  }

  function FirstIn(ls: seq<seq<Alias>>, n: string): (r: Option<Alias>)
    ensures r.Some? ==> r.value.command == n && !Disabled(r.value)
  {
    if ls == [] then None
    else if Lookup(ls[0], n).Some? then Lookup(ls[0], n)
    else FirstIn(ls[1..], n)
  }

  /** The player's own alias comes first, and then the libraries in their order. */
  function Best(player: seq<Alias>, ls: seq<seq<Alias>>, n: string): (r: Option<Alias>)
    ensures r.Some? ==> r.value.command == n && !Disabled(r.value)
  {
    if Lookup(player, n).Some? then Lookup(player, n) else FirstIn(ls, n)
  }

  // ---------------------------------------------------------------- advancing one list

  function Skipped(l: seq<Alias>): (r: seq<Alias>)
    ensures r != [] ==> !Disabled(r[0])
    ensures |r| <= |l|
    ensures Ascending(l) ==> Ascending(r)
  {
    if l != [] && Disabled(l[0]) then Skipped(l[1..]) else l
  }

  predicate AtLeast(l: seq<Alias>, c: string) {
    l != [] ==> !StrLt(l[0].command, c)
  }

  /** What is dropped is disabled or of that name; what is left is not below it. */
  predicate Advanced(l: seq<Alias>, r: seq<Alias>, c: string)
    decreases |l|
  {
    if l == r then AtLeast(r, c)
    else l != [] && (Disabled(l[0]) || l[0].command == c) && Advanced(l[1..], r, c)
  }

  lemma {:induction false} AdvancedSkipped(l: seq<Alias>, c: string)
    requires AtLeast(Skipped(l), c)
    ensures Advanced(l, Skipped(l), c)
    decreases |l|
  {
    if l != [] && Disabled(l[0]) {
      AdvancedSkipped(l[1..], c);
    }
  }

  lemma {:induction false} AdvancedTail(l: seq<Alias>, r: seq<Alias>, c: string)
    requires Ascending(l) && Advanced(l, r, c) && r != [] && r[0].command == c
    ensures Advanced(l, r[1..], c)
    decreases |l|
  {
    if l == r {
      if |l| > 1 {
        AscendingAt(l, 0, 1);
      }
    } else {
      AdvancedShorter(l[1..], r, c);
      AdvancedTail(l[1..], r, c);
    }
  }

  lemma {:induction false} AdvancedShorter(l: seq<Alias>, r: seq<Alias>, c: string)
    requires Advanced(l, r, c)
    ensures |r| <= |l| && AtLeast(r, c) && (Ascending(l) ==> Ascending(r))
    decreases |l|
  {
    if l != r {
      AdvancedShorter(l[1..], r, c);
    }
  }

  lemma {:induction false} NothingBelow(l: seq<Alias>, n: string)
    requires Ascending(l) && (l != [] ==> StrLt(n, l[0].command))
    ensures Lookup(l, n) == None
    decreases |l|
  {
    if l != [] {
      StrLtTrichotomy(n, l[0].command);
      if |l| > 1 {
        StrLtTransitive(n, l[0].command, l[1].command);
      }
      NothingBelow(l[1..], n);
    }
  }

  /** Names behind the one that was passed are where they were. */
  lemma {:induction false} AdvancedLookup(l: seq<Alias>, r: seq<Alias>, c: string, n: string)
    requires Ascending(l) && Advanced(l, r, c)
    ensures StrLt(c, n) ==> Lookup(r, n) == Lookup(l, n)
    ensures StrLt(n, c) ==> Lookup(l, n) == None
    decreases |l|
  {
    StrLtTrichotomy(n, c);
    if l == r {
      if StrLt(n, c) {
        if l != [] {
          StrLtTrichotomy(l[0].command, c);
          if StrLt(c, l[0].command) {
            StrLtTransitive(n, c, l[0].command);
          }
        }
        NothingBelow(l, n);
      }
    } else {
      AdvancedLookup(l[1..], r, c, n);
    }
  }

  lemma {:induction false} LookupSkipped(l: seq<Alias>, n: string)
    ensures Lookup(Skipped(l), n) == Lookup(l, n)
    decreases |l|
  {
    if l != [] && Disabled(l[0]) {
      LookupSkipped(l[1..], n);
    }
  }

  /** The name is on offer in a list exactly if it stands at its head. */
  lemma LookupHead(l: seq<Alias>, c: string)
    requires Ascending(l) && AtLeast(Skipped(l), c)
    ensures Lookup(l, c) ==
      if Skipped(l) != [] && Skipped(l)[0].command == c then Some(Skipped(l)[0]) else None
  {
    LookupSkipped(l, c);
    var r := Skipped(l);
    if r != [] && r[0].command != c {
      StrLtTrichotomy(r[0].command, c);
      NothingBelow(r, c);
    }
  }

  lemma {:induction false} FirstInAt(ls: seq<seq<Alias>>, k: nat, n: string)
    requires k < |ls| && Lookup(ls[k], n).Some? && forall i :: 0 <= i < k ==> Lookup(ls[i], n) == None
    ensures FirstIn(ls, n) == Lookup(ls[k], n)
    decreases |ls|
  {
    if k > 0 {
      assert Lookup(ls[0], n) == None;
      FirstInAt(ls[1..], k - 1, n);
    }
  }

  lemma {:induction false} FirstInNone(ls: seq<seq<Alias>>, n: string)
    requires forall i :: 0 <= i < |ls| ==> Lookup(ls[i], n) == None
    ensures FirstIn(ls, n) == None
    decreases |ls|
  {
    if ls != [] {
      FirstInNone(ls[1..], n);
    }
  }

  lemma {:induction false} FirstInSame(ls: seq<seq<Alias>>, rs: seq<seq<Alias>>, n: string)
    requires |ls| == |rs| && forall i :: 0 <= i < |ls| ==> Lookup(rs[i], n) == Lookup(ls[i], n)
    ensures FirstIn(rs, n) == FirstIn(ls, n)
    decreases |ls|
  {
    if ls != [] {
      assert Lookup(rs[0], n) == Lookup(ls[0], n);
      FirstInSame(ls[1..], rs[1..], n);
    }
  }

  predicate AllAscending(ls: seq<seq<Alias>>) {
    forall i :: 0 <= i < |ls| ==> Ascending(ls[i])
  }

  predicate AllAdvanced(ls: seq<seq<Alias>>, rs: seq<seq<Alias>>, c: string) {
    |ls| == |rs| && forall i :: 0 <= i < |ls| ==> Advanced(ls[i], rs[i], c)
  }

  /** The first lists are past their disabled heads already. */
  predicate PartSkipped(ls: seq<seq<Alias>>, rs: seq<seq<Alias>>, n: nat) {
    && |ls| == |rs|
    && (forall i :: 0 <= i < n && i < |ls| ==> rs[i] == Skipped(ls[i]))
    && (forall i :: n <= i < |ls| ==> rs[i] == ls[i])
  }

  lemma PartSkippedNext(ls: seq<seq<Alias>>, rs: seq<seq<Alias>>, n: nat)
    requires PartSkipped(ls, rs, n) && n < |ls|
    ensures PartSkipped(ls, rs[n := Skipped(rs[n])], n + 1)
  {
  }

  predicate AllSkipped(ls: seq<seq<Alias>>, rs: seq<seq<Alias>>) {
    |ls| == |rs| && forall i :: 0 <= i < |ls| ==> rs[i] == Skipped(ls[i])
  }

  /** The head at `first` is the least, and the leftmost of those. */
  predicate Least(rs: seq<seq<Alias>>, first: nat) {
    && first < |rs| && rs[first] != []
    && (forall i :: 0 <= i < first && rs[i] != [] ==> StrLt(rs[first][0].command, rs[i][0].command))
    && (forall i :: first < i < |rs| && rs[i] != [] ==> !StrLt(rs[i][0].command, rs[first][0].command))
  }

  lemma LeastNext(rs: seq<seq<Alias>>, first: nat, rest: seq<Alias>, next: nat)
    requires Least(rs, first)
    requires next == if rest != [] && StrLt(rest[0].command, rs[first][0].command) then |rs| else first
    ensures Least(rs + [rest], next)
  {
    if next == |rs| {
      forall i | 0 <= i < |rs| && rs[i] != []
        ensures StrLt(rest[0].command, rs[i][0].command)
      {
        StrLtTrichotomy(rs[i][0].command, rs[first][0].command);
        if StrLt(rs[first][0].command, rs[i][0].command) {
          StrLtTransitive(rest[0].command, rs[first][0].command, rs[i][0].command);
        }
      }
    }
  }

  function WithoutHead(l: seq<Alias>, c: string): seq<Alias> {
    if l != [] && l[0].command == c then l[1..] else l
  }

  /** The libraries that the loop over the others comes to. */
  predicate LooksAt(i: nat, num: nat) {
    2 * i + 1 < num
  }

  /** A library that the loop does not come to, and one before it, both offer the name. */
  ghost predicate Again(ls: seq<seq<Alias>>, n: string) {
    exists i :: 0 <= i < |ls| && !LooksAt(i, |ls|) && Lookup(ls[i], n).Some? && FirstIn(ls[..i], n).Some?
  }

  /** `alias_search_node`: a pointer into a list stands for the list from there on. */
  class AliasSearch {
    var playerCurrent: seq<Alias>
    var sysList: seq<seq<Alias>>
    var isSystemAlias: bool

    constructor (player: seq<Alias>, libraries: seq<seq<Alias>>)
      ensures playerCurrent == player && sysList == libraries
    {
      playerCurrent, sysList, isSystemAlias := player, libraries, false;
    }

    static method SkipDisabled(l: seq<Alias>) returns (r: seq<Alias>)
      ensures r == Skipped(l)
    {
      r := l;
      while r != [] && Disabled(r[0])
        invariant Skipped(r) == Skipped(l)
        decreases |r|
      {
        r := r[1..];
      }
    }

    /** The first library with anything on offer. */
    method FirstHead() returns (count: nat)
      modifies this`sysList
      ensures count <= |sysList| && PartSkipped(old(sysList), sysList, count + 1)
      ensures forall i :: 0 <= i < count ==> sysList[i] == []
      ensures count < |sysList| ==> sysList[count] != []
    {
      count := 0;
      while count < |sysList|
        invariant count <= |sysList| && PartSkipped(old(sysList), sysList, count)
        invariant forall i :: 0 <= i < count ==> sysList[i] == []
      {
        PartSkippedNext(old(sysList), sysList, count);
        var rest := SkipDisabled(sysList[count]);
        sysList := sysList[count := rest];
        if rest != [] {
          return;
        }
        count := count + 1;
      }
    }

    /** The library with the least name on offer. */
    method LeastHead(start: nat, ghost ls: seq<seq<Alias>>) returns (first: nat)
      requires start < |sysList| && sysList[start] != [] && PartSkipped(ls, sysList, start + 1)
      requires forall i :: 0 <= i < start ==> sysList[i] == []
      modifies this`sysList
      ensures AllSkipped(ls, sysList) && Least(sysList, first)
    {
      first := start;
      var last := start + 1;
      while last < |sysList|
        invariant first < last <= |sysList| && PartSkipped(ls, sysList, last)
        invariant Least(sysList[..last], first)
      {
        first := TryHead(last, first, ls);
        last := last + 1;
      }
      assert sysList[..last] == sysList;
    }

    method TryHead(last: nat, first0: nat, ghost ls: seq<seq<Alias>>) returns (first: nat)
      requires first0 < last < |sysList| && PartSkipped(ls, sysList, last) && Least(sysList[..last], first0)
      modifies this`sysList
      ensures |sysList| == |old(sysList)| && PartSkipped(ls, sysList, last + 1)
      ensures first <= last && Least(sysList[..last + 1], first)
    {
      first := first0;
      ghost var before := sysList[..last];
      PartSkippedNext(ls, sysList, last);
      var rest := SkipDisabled(sysList[last]);
      sysList := sysList[last := rest];
      if rest != [] && StrCmp(sysList[first][0].command, rest[0].command) > 0 {
        first := last;
      }
      LeastNext(before, first0, rest, first);
      assert sysList[..last + 1] == before + [rest];
    }

    /** The loop over the other libraries: it counts twice a round, so it looks at half of them. */
    method SkipSame(c: string)
      modifies this`sysList
      ensures |sysList| == |old(sysList)|
      ensures forall i :: 0 <= i < |sysList| ==>
        sysList[i] == if LooksAt(i, |sysList|) then WithoutHead(old(sysList)[i], c) else old(sysList)[i]
    {
      var count, i := 0, 0;
      count := count + 1;
      while count < |sysList|
        invariant count == 2 * i + 1 && |sysList| == |old(sysList)|
        invariant forall j :: 0 <= j < i && j < |sysList| ==>
          LooksAt(j, |sysList|) && sysList[j] == WithoutHead(old(sysList)[j], c)
        invariant forall j :: i <= j < |sysList| ==> sysList[j] == old(sysList)[j]
      {
        if sysList[i] != [] {
          if StrCmp(sysList[i][0].command, c) == 0 {
            sysList := sysList[i := sysList[i][1..]];
          }
        }
        count := count + 1;
        i := i + 1;
        count := count + 1;
      }
    }

    /** The choice between the player's next alias and that of the library. */
    method Choose(first: nat) returns (ret: Alias)
      requires first < |sysList| && sysList[first] != []
      modifies this
      ensures var s, p := old(sysList)[first], old(playerCurrent);
        && isSystemAlias == (p == [] || StrLt(s[0].command, p[0].command))
        && ret == (if isSystemAlias then s[0] else p[0])
        && playerCurrent == (if isSystemAlias then p else p[1..])
        && sysList == old(sysList)[first := if s[0].command == ret.command then s[1..] else s]
    {
      isSystemAlias := false;
      var sav := 0;
      if playerCurrent != [] {
        sav := StrCmp(sysList[first][0].command, playerCurrent[0].command);
      }
      if playerCurrent == [] || sav < 0 {
        ret := sysList[first][0];
        sysList := sysList[first := sysList[first][1..]];
        isSystemAlias := true;
      } else {
        ret := playerCurrent[0];
        if sav == 0 {
          sysList := sysList[first := sysList[first][1..]];
        }
        playerCurrent := playerCurrent[1..];
      }
    }

    /** `internal_alias_search_next` */
    method Next() returns (ret: Option<Alias>)
      requires Ascending(playerCurrent) && AllAscending(sysList)
      modifies this
      ensures ret == None ==> Exhausted(old(playerCurrent), old(sysList))
      ensures ret.Some? ==> Step(old(playerCurrent), old(sysList), playerCurrent, sysList, ret.value)
      ensures ret.Some? ==> (isSystemAlias <==> Lookup(old(playerCurrent), ret.value.command) == None)
    {
      isSystemAlias := false;
      playerCurrent := SkipDisabled(playerCurrent);
      var count := FirstHead();
      if count >= |sysList| {
        if playerCurrent == [] {
          return None;
        }
        ret := Some(playerCurrent[0]);
        PlayerOnly(old(playerCurrent), old(sysList), sysList);
        playerCurrent := playerCurrent[1..];
        return;
      }
      var first := LeastHead(count, old(sysList));
      ghost var heads := sysList;
      var chosen := Choose(first);
      ghost var taken := sysList;
      SkipSame(chosen.command);
      ret := Some(chosen);
      Chosen(old(playerCurrent), old(sysList), heads, first, chosen, playerCurrent, taken, sysList);
    }

    /** Every walk ends, and gives the names in order, each of them first as its best alias. */
    method SearchAll() returns (found: seq<Alias>)
      requires Ascending(playerCurrent) && AllAscending(sysList)
      modifies this
      ensures InOrder(found) && Faithful(old(playerCurrent), old(sysList), found)
      ensures Complete(old(playerCurrent), old(sysList), found)
      ensures Strict(found) <==> forall n :: !Again(old(sysList), n)
    {
      ghost var player, ls := playerCurrent, sysList;
      found := [];
      while true
        invariant Ascending(playerCurrent) && AllAscending(sysList)
        invariant InOrder(found) && Faithful(player, ls, found)
        invariant Ahead(player, ls, playerCurrent, sysList, found)
        invariant Unrepeated(ls, playerCurrent, sysList, found)
        decreases |playerCurrent| + Total(sysList)
      {
        ghost var p, s := playerCurrent, sysList;
        var ret := Next();
        if ret == None {
          NothingLeft(player, ls, p, s, found);
          NothingAgain(player, ls, p, s, found);
          return;
        }
        OneMore(player, ls, p, s, playerCurrent, sysList, found, ret.value);
        OneMoreUnrepeated(player, ls, p, s, playerCurrent, sysList, found, ret.value);
        found := found + [ret.value];
      }
    }
  }

  // ---------------------------------------------------------------- whole walks

  predicate InOrder(found: seq<Alias>) {
    forall i :: 1 <= i < |found| ==> !StrLt(found[i].command, found[i - 1].command)
  }

  /** The first alias of each name is the player's, or else that of the first library with one. */
  predicate Faithful(player: seq<Alias>, ls: seq<seq<Alias>>, found: seq<Alias>) {
    forall i :: 0 <= i < |found| && (i == 0 || found[i - 1].command != found[i].command) ==>
      Best(player, ls, found[i].command) == Some(found[i])
  }

  predicate Named(found: seq<Alias>, n: string) {
    exists i :: 0 <= i < |found| && found[i].command == n
  }

  /** Every name on offer is found. */
  ghost predicate Complete(player: seq<Alias>, ls: seq<seq<Alias>>, found: seq<Alias>) {
    forall n :: Best(player, ls, n).Some? ==> Named(found, n)
  }

  predicate Behind(found: seq<Alias>, n: string) {
    found == [] || StrLt(found[|found| - 1].command, n)
  }

  /** Midway: names behind the last one found are still as they were, and the others are found. */
  ghost predicate Ahead(player: seq<Alias>, ls: seq<seq<Alias>>, p: seq<Alias>, s: seq<seq<Alias>>, found: seq<Alias>) {
    && (forall n :: Behind(found, n) ==> Best(p, s, n) == Best(player, ls, n))
    && (forall n :: !Behind(found, n) && Best(player, ls, n).Some? ==> Named(found, n))
    && (found != [] ==> forall n :: StrLt(n, found[|found| - 1].command) ==> Best(p, s, n) == None)
  }

  /** No name is found twice. */
  predicate Strict(found: seq<Alias>) {
    forall i :: 1 <= i < |found| ==> StrLt(found[i - 1].command, found[i].command)
  }

  /** Midway: what decides whether a name has been, or will be, found twice. */
  ghost predicate Unrepeated(ls: seq<seq<Alias>>, p: seq<Alias>, s: seq<seq<Alias>>, found: seq<Alias>) {
    && (forall n :: Behind(found, n) ==> (Again(s, n) <==> Again(ls, n)))
    && (!Strict(found) ==> exists n :: Again(ls, n))
    && (Strict(found) && found != [] ==>
          var last := found[|found| - 1].command;
          && (Best(p, s, last).Some? <==> Again(ls, last))
          && forall n :: StrLt(n, last) ==> !Again(ls, n))
  }

  lemma NothingAgain(player: seq<Alias>, ls: seq<seq<Alias>>, p: seq<Alias>, s: seq<seq<Alias>>, found: seq<Alias>)
    requires Ahead(player, ls, p, s, found) && Unrepeated(ls, p, s, found) && Exhausted(p, s)
    ensures Strict(found) <==> forall n :: !Again(ls, n)
  {
    if Strict(found) {
      forall n
        ensures !Again(ls, n)
      {
        NoneOffered(p, s, n);
        if Behind(found, n) {
          OfferedIfAgain(s, n);
        } else {
          StrLtTrichotomy(found[|found| - 1].command, n);
        }
      }
    }
  }

  lemma NoneOffered(p: seq<Alias>, s: seq<seq<Alias>>, n: string)
    requires Exhausted(p, s)
    ensures Best(p, s, n) == None
  {
    LookupSkipped(p, n);
    forall i | 0 <= i < |s|
      ensures Lookup(s[i], n) == None
    {
      LookupSkipped(s[i], n);
    }
    FirstInNone(s, n);
  }

  lemma OfferedIfAgain(s: seq<seq<Alias>>, n: string)
    ensures Again(s, n) ==> FirstIn(s, n).Some?
  {
    if i :| 0 <= i < |s| && !LooksAt(i, |s|) && Lookup(s[i], n).Some? && FirstIn(s[..i], n).Some? {
      if FirstIn(s, n) == None {
        NoneFirst(s, n, i);
      }
    }
  }

  lemma AgainSame(s: seq<seq<Alias>>, s': seq<seq<Alias>>, n: string)
    requires |s| == |s'| && forall i :: 0 <= i < |s| ==> Lookup(s'[i], n) == Lookup(s[i], n)
    ensures Again(s', n) <==> Again(s, n)
  {
    forall i | 0 <= i < |s|
      ensures FirstIn(s'[..i], n) == FirstIn(s[..i], n)
    {
      FirstInSame(s[..i], s'[..i], n);
    }
  }

  lemma StepAgain(p: seq<Alias>, s: seq<seq<Alias>>, p': seq<Alias>, s': seq<seq<Alias>>, ret: Alias, n: string)
    requires Ascending(p) && AllAscending(s) && Step(p, s, p', s', ret) && StrLt(ret.command, n)
    ensures Again(s', n) <==> Again(s, n)
  {
    forall i | 0 <= i < |s|
      ensures Lookup(s'[i], n) == Lookup(s[i], n)
    {
      StepList(s[i], s'[i], ret.command, n);
    }
    AgainSame(s, s', n);
  }

  lemma OneMoreUnrepeated(player: seq<Alias>, ls: seq<seq<Alias>>, p: seq<Alias>, s: seq<seq<Alias>>,
                          p': seq<Alias>, s': seq<seq<Alias>>, found: seq<Alias>, ret: Alias)
    requires Ascending(p) && AllAscending(s) && Step(p, s, p', s', ret)
    requires Ahead(player, ls, p, s, found) && Unrepeated(ls, p, s, found) && InOrder(found + [ret])
    ensures Unrepeated(ls, p', s', found + [ret])
  {
    var all, c := found + [ret], ret.command;
    StrictMore(found, ret);
    forall n
      ensures Behind(all, n) ==> (Again(s', n) <==> Again(ls, n))
    {
      if Behind(all, n) {
        BehindMore(found, ret, n);
        StepAgain(p, s, p', s', ret, n);
      }
    }
    if Strict(all) {
      BehindSelf(found, ret);
      forall n | StrLt(n, c)
        ensures !Again(ls, n)
      {
        StepLookup(p, s, p', s', ret, n);
        OfferedIfAgain(s, n);
        if found != [] {
          StrLtTrichotomy(n, found[|found| - 1].command);
        }
      }
    }
  }

  lemma StrictMore(found: seq<Alias>, ret: Alias)
    requires InOrder(found + [ret])
    ensures Strict(found + [ret]) <==> Strict(found) && Behind(found, ret.command)
    ensures found != [] && !Behind(found, ret.command) ==> found[|found| - 1].command == ret.command
    ensures found != [] ==> !StrLt(ret.command, found[|found| - 1].command)
  {
    var all := found + [ret];
    if Strict(all) {
      forall i | 1 <= i < |found|
        ensures StrLt(found[i - 1].command, found[i].command)
      {
        assert StrLt(all[i - 1].command, all[i].command);
      }
    }
    if found != [] {
      assert all[|found|] == ret && all[|found| - 1] == found[|found| - 1];
      StrLtTrichotomy(found[|found| - 1].command, ret.command);
    }
  }

  lemma BehindSelf(found: seq<Alias>, ret: Alias)
    ensures !Behind(found + [ret], ret.command)
  {
    StrLtTrichotomy(ret.command, ret.command);
  }

  lemma NothingLeft(player: seq<Alias>, ls: seq<seq<Alias>>, p: seq<Alias>, s: seq<seq<Alias>>, found: seq<Alias>)
    requires Ahead(player, ls, p, s, found) && Exhausted(p, s)
    ensures Complete(player, ls, found)
  {
    forall n | Best(player, ls, n).Some?
      ensures Named(found, n)
    {
      NoneOffered(p, s, n);
    }
  }

  lemma StepLookup(p: seq<Alias>, s: seq<seq<Alias>>, p': seq<Alias>, s': seq<seq<Alias>>, ret: Alias, n: string)
    requires Ascending(p) && AllAscending(s) && Step(p, s, p', s', ret)
    ensures StrLt(ret.command, n) ==> Best(p', s', n) == Best(p, s, n)
    ensures StrLt(n, ret.command) ==> Best(p, s, n) == None && Best(p', s', n) == None
  {
    StepList(p, p', ret.command, n);
    forall i | 0 <= i < |s|
      ensures StrLt(ret.command, n) ==> Lookup(s'[i], n) == Lookup(s[i], n)
      ensures StrLt(n, ret.command) ==> Lookup(s[i], n) == None && Lookup(s'[i], n) == None
    {
      StepList(s[i], s'[i], ret.command, n);
    }
    if StrLt(ret.command, n) {
      FirstInSame(s, s', n);
    }
    if StrLt(n, ret.command) {
      FirstInNone(s, n);
      FirstInNone(s', n);
    }
  }

  lemma StepList(l: seq<Alias>, r: seq<Alias>, c: string, n: string)
    requires Ascending(l) && Advanced(l, r, c)
    ensures Ascending(r)
    ensures StrLt(c, n) ==> Lookup(r, n) == Lookup(l, n)
    ensures StrLt(n, c) ==> Lookup(l, n) == None && Lookup(r, n) == None
  {
    AdvancedShorter(l, r, c);
    AdvancedLookup(l, r, c, n);
    if StrLt(n, c) && r != [] {
      StrLtTrichotomy(r[0].command, c);
      if StrLt(c, r[0].command) {
        StrLtTransitive(n, c, r[0].command);
      }
      NothingBelow(r, n);
    }
  }

  lemma OneMore(player: seq<Alias>, ls: seq<seq<Alias>>, p: seq<Alias>, s: seq<seq<Alias>>,
                p': seq<Alias>, s': seq<seq<Alias>>, found: seq<Alias>, ret: Alias)
    requires Ascending(p) && AllAscending(s) && Step(p, s, p', s', ret)
    requires InOrder(found) && Faithful(player, ls, found) && Ahead(player, ls, p, s, found)
    ensures Ascending(p') && AllAscending(s')
    ensures InOrder(found + [ret]) && Faithful(player, ls, found + [ret])
    ensures Ahead(player, ls, p', s', found + [ret])
  {
    var all, c := found + [ret], ret.command;
    StepList(p, p', c, c);
    forall i | 0 <= i < |s'|
      ensures Ascending(s'[i])
    {
      StepList(s[i], s'[i], c, c);
    }
    assert Best(p, s, c) == Some(ret);
    if found != [] {
      var b := found[|found| - 1].command;
      assert !StrLt(c, b);
      StrLtTrichotomy(b, c);
      assert b != c ==> Behind(found, c);
    }
    FaithfulMore(player, ls, found, ret);
    forall n
      ensures Behind(all, n) ==> Best(p', s', n) == Best(player, ls, n)
      ensures StrLt(n, c) ==> Best(p', s', n) == None
      ensures !Behind(all, n) && Best(player, ls, n).Some? ==> Named(all, n)
    {
      OneMoreName(player, ls, p, s, p', s', found, ret, n);
    }
  }

  lemma FaithfulMore(player: seq<Alias>, ls: seq<seq<Alias>>, found: seq<Alias>, ret: Alias)
    requires InOrder(found) && Faithful(player, ls, found)
    requires found != [] ==> !StrLt(ret.command, found[|found| - 1].command)
    requires found == [] || found[|found| - 1].command != ret.command ==> Best(player, ls, ret.command) == Some(ret)
    ensures InOrder(found + [ret]) && Faithful(player, ls, found + [ret])
  {
    var all := found + [ret];
    forall i | 0 <= i < |all|
      ensures i >= 1 ==> !StrLt(all[i].command, all[i - 1].command)
      ensures i == 0 || all[i - 1].command != all[i].command ==> Best(player, ls, all[i].command) == Some(all[i])
    {
      if i < |found| {
        assert all[i] == found[i] && (i >= 1 ==> all[i - 1] == found[i - 1]);
      }
    }
  }

  lemma OneMoreName(player: seq<Alias>, ls: seq<seq<Alias>>, p: seq<Alias>, s: seq<seq<Alias>>,
                    p': seq<Alias>, s': seq<seq<Alias>>, found: seq<Alias>, ret: Alias, n: string)
    requires Ascending(p) && AllAscending(s) && Step(p, s, p', s', ret) && Ahead(player, ls, p, s, found)
    requires found != [] ==> !StrLt(ret.command, found[|found| - 1].command)
    ensures Behind(found + [ret], n) ==> Best(p', s', n) == Best(player, ls, n)
    ensures StrLt(n, ret.command) ==> Best(p', s', n) == None
    ensures !Behind(found + [ret], n) && Best(player, ls, n).Some? ==> Named(found + [ret], n)
  {
    StepLookup(p, s, p', s', ret, n);
    StrLtTrichotomy(n, ret.command);
    BehindMore(found, ret, n);
    if Named(found, n) {
      NamedMore(found, ret, n);
    } else if n == ret.command {
      assert (found + [ret])[|found|].command == n;
    }
  }

  lemma NamedMore(found: seq<Alias>, ret: Alias, n: string)
    requires Named(found, n)
    ensures Named(found + [ret], n)
  {
    var i :| 0 <= i < |found| && found[i].command == n;
    assert (found + [ret])[i].command == n;
  }

  lemma BehindMore(found: seq<Alias>, ret: Alias, n: string)
    requires found != [] ==> !StrLt(ret.command, found[|found| - 1].command)
    ensures Behind(found + [ret], n) <==> StrLt(ret.command, n)
    ensures StrLt(ret.command, n) ==> Behind(found, n)
  {
    if found != [] && StrLt(ret.command, n) {
      var b := found[|found| - 1].command;
      StrLtTrichotomy(b, ret.command);
      if b != ret.command {
        StrLtTransitive(b, ret.command, n);
      }
    }
  }

  /** Nothing is on offer any more. */
  predicate Exhausted(player: seq<Alias>, ls: seq<seq<Alias>>) {
    Skipped(player) == [] && forall i :: 0 <= i < |ls| ==> Skipped(ls[i]) == []
  }

  /** One alias is returned: the best of its name; and the lists move past that name at most. */
  ghost predicate Step(player: seq<Alias>, ls: seq<seq<Alias>>, player': seq<Alias>, ls': seq<seq<Alias>>, ret: Alias) {
    && (Best(player', ls', ret.command).Some? <==> Again(ls, ret.command))
    && Some(ret) == Best(player, ls, ret.command)
    && Advanced(player, player', ret.command) && AllAdvanced(ls, ls', ret.command)
    && |player'| + Total(ls') < |player| + Total(ls)
  }

  function Total(ls: seq<seq<Alias>>): nat {
    if ls == [] then 0 else |ls[0]| + Total(ls[1..])
  }

  lemma {:induction false} TotalShrinks(ls: seq<seq<Alias>>, rs: seq<seq<Alias>>)
    requires |ls| == |rs| && forall i :: 0 <= i < |ls| ==> |rs[i]| <= |ls[i]|
    ensures Total(rs) <= Total(ls)
    decreases |ls|
  {
    if ls != [] {
      assert |rs[0]| <= |ls[0]|;
      TotalShrinks(ls[1..], rs[1..]);
    }
  }

  lemma {:induction false} TotalFalls(ls: seq<seq<Alias>>, rs: seq<seq<Alias>>, k: nat)
    requires |ls| == |rs| && forall i :: 0 <= i < |ls| ==> |rs[i]| <= |ls[i]|
    requires k < |ls| && |rs[k]| < |ls[k]|
    ensures Total(rs) < Total(ls)
    decreases |ls|
  {
    if k == 0 {
      TotalShrinks(ls[1..], rs[1..]);
    } else {
      assert |rs[0]| <= |ls[0]|;
      TotalFalls(ls[1..], rs[1..], k - 1);
    }
  }

  /** The libraries have nothing left, and the player's next alias is returned. */
  lemma PlayerOnly(player: seq<Alias>, ls: seq<seq<Alias>>, heads: seq<seq<Alias>>)
    requires Ascending(player) && AllAscending(ls) && AllSkipped(ls, heads)
    requires Skipped(player) != [] && forall i :: 0 <= i < |heads| ==> heads[i] == []
    ensures Step(player, ls, Skipped(player)[1..], heads, Skipped(player)[0])
    ensures Lookup(player, Skipped(player)[0].command).Some?
  {
    var c := Skipped(player)[0].command;
    StrLtTrichotomy(c, c);
    LookupHead(player, c);
    AdvancedSkipped(player, c);
    AdvancedTail(player, Skipped(player), c);
    forall i | 0 <= i < |ls|
      ensures Advanced(ls[i], heads[i], c) && |heads[i]| <= |ls[i]|
    {
      assert heads[i] == Skipped(ls[i]);
      AdvancedSkipped(ls[i], c);
    }
    TotalShrinks(ls, heads);
    NotAgain(player, ls, Skipped(player)[1..], heads, c);
  }

  lemma NotAgain(player: seq<Alias>, ls: seq<seq<Alias>>, player': seq<Alias>, ls': seq<seq<Alias>>, c: string)
    requires Ascending(player) && Skipped(player) != [] && Skipped(player)[0].command == c
    requires player' == Skipped(player)[1..] && AllSkipped(ls, ls') && forall i :: 0 <= i < |ls'| ==> ls'[i] == []
    ensures Best(player', ls', c) == None && !Again(ls, c)
  {
    TailLookup(Skipped(player), c);
    FirstInNone(ls', c);
    forall i | 0 <= i < |ls|
      ensures Lookup(ls[i], c) == None
    {
      assert ls'[i] == Skipped(ls[i]);
      LookupSkipped(ls[i], c);
    }
  }

  lemma TailLookup(l: seq<Alias>, c: string)
    requires Ascending(l) && l != [] && l[0].command == c
    ensures Lookup(l[1..], c) == None
  {
    NothingBelow(l[1..], c);
  }

  /** What a list offers of the name after it has moved on. */
  lemma LeftOver(l: seq<Alias>, taken: seq<Alias>, r: seq<Alias>, c: string, dropped: bool)
    requires Ascending(l) && AtLeast(Skipped(l), c)
    requires taken == Skipped(l) || (Skipped(l) != [] && Skipped(l)[0].command == c && taken == Skipped(l)[1..])
    requires dropped ==> taken == WithoutHead(Skipped(l), c) || r == WithoutHead(taken, c)
    requires !dropped ==> r == taken == Skipped(l)
    requires r == taken || r == WithoutHead(taken, c)
    ensures Lookup(r, c) == if dropped then None else Lookup(l, c)
  {
    LookupHead(l, c);
    LookupSkipped(l, c);
    var h := Skipped(l);
    if h != [] && h[0].command == c {
      TailLookup(h, c);
      if |h| > 1 {
        StrLtTrichotomy(c, h[1].command);
      }
    }
  }

  /** The name is still on offer exactly if a library that the loop does not come to has it
      behind the one that was taken. */
  lemma ChosenAgain(player: seq<Alias>, ls: seq<seq<Alias>>, heads: seq<seq<Alias>>, first: nat, c: string,
                    player': seq<Alias>, ls': seq<seq<Alias>>)
    requires Ascending(player) && AllAscending(ls) && AllSkipped(ls, heads) && first < |heads|
    requires AtLeast(Skipped(player), c) && Bounded(heads, first, c) && |ls'| == |ls|
    requires player' == (if Skipped(player) != [] && Skipped(player)[0].command == c
                         then Skipped(player)[1..] else Skipped(player))
    requires forall i :: 0 <= i < |ls| ==>
      var taken := if i == first then WithoutHead(heads[i], c) else heads[i];
      ls'[i] == if LooksAt(i, |ls|) then WithoutHead(taken, c) else taken
    ensures Best(player', ls', c).Some? <==> Again(ls, c)
  {
    LeftOver(player, player', player', c, true);
    forall i | 0 <= i < |ls|
      ensures Lookup(ls'[i], c) == if i == first || LooksAt(i, |ls|) then None else Lookup(ls[i], c)
      ensures Lookup(ls[i], c).Some? ==> first <= i && Lookup(ls[first], c).Some?
    {
      assert heads[i] == Skipped(ls[i]) && heads[first] == Skipped(ls[first]);
      LookupHead(ls[first], c);
      var taken := if i == first then WithoutHead(heads[i], c) else heads[i];
      LeftOver(ls[i], taken, ls'[i], c, i == first || LooksAt(i, |ls|));
      LookupHead(ls[i], c);
    }
    AgainIff(ls, ls', first, c);
  }

  lemma AgainIff(ls: seq<seq<Alias>>, ls': seq<seq<Alias>>, first: nat, c: string)
    requires |ls| == |ls'| && first < |ls|
    requires forall i :: 0 <= i < |ls| ==>
      Lookup(ls'[i], c) == if i == first || LooksAt(i, |ls|) then None else Lookup(ls[i], c)
    requires forall i :: 0 <= i < |ls| && Lookup(ls[i], c).Some? ==> first <= i && Lookup(ls[first], c).Some?
    ensures FirstIn(ls', c).Some? <==> Again(ls, c)
  {
    if FirstIn(ls', c).Some? {
      var i := FirstIndex(ls', c);
      assert i > first;
      FirstInAt(ls[..i], first, c);
    }
    if i :| 0 <= i < |ls| && !LooksAt(i, |ls|) && Lookup(ls[i], c).Some? && FirstIn(ls[..i], c).Some? {
      var j := FirstIndex(ls[..i], c);
      assert Lookup(ls'[i], c).Some?;
      if FirstIn(ls', c) == None {
        NoneFirst(ls', c, i);
      }
    }
  }

  lemma {:induction false} FirstIndex(ls: seq<seq<Alias>>, n: string) returns (i: nat)
    requires FirstIn(ls, n).Some?
    ensures i < |ls| && Lookup(ls[i], n).Some?
  {
    if Lookup(ls[0], n).Some? {
      i := 0;
    } else {
      i := FirstIndex(ls[1..], n);
      i := i + 1;
    }
  }

  lemma {:induction false} NoneFirst(ls: seq<seq<Alias>>, n: string, i: nat)
    requires FirstIn(ls, n) == None && i < |ls|
    ensures Lookup(ls[i], n) == None
    decreases |ls|
  {
    if i > 0 {
      NoneFirst(ls[1..], n, i - 1);
    }
  }

  /** Heads that are not below the name, and the first that is of that name, if any is. */
  predicate Bounded(heads: seq<seq<Alias>>, first: nat, c: string) {
    && (forall i :: 0 <= i < |heads| ==> AtLeast(heads[i], c))
    && (forall i :: 0 <= i < |heads| && heads[i] != [] && heads[i][0].command == c ==>
          first <= i && heads[first] != [] && heads[first][0].command == c)
  }

  lemma ChosenLeast(p: seq<Alias>, heads: seq<seq<Alias>>, first: nat, c: string)
    requires Least(heads, first)
    requires var s := heads[first];
      c == if p == [] || StrLt(s[0].command, p[0].command) then s[0].command else p[0].command
    ensures AtLeast(p, c) && Bounded(heads, first, c)
  {
    var d := heads[first][0].command;
    StrLtTrichotomy(d, c);
    StrLtTrichotomy(c, c);
    if p != [] {
      StrLtTrichotomy(d, p[0].command);
    }
    forall i | 0 <= i < |heads| && heads[i] != []
      ensures !StrLt(heads[i][0].command, c) && (heads[i][0].command == c ==> first <= i && d == c)
    {
      var e := heads[i][0].command;
      StrLtTrichotomy(e, c);
      StrLtTrichotomy(e, d);
      if StrLt(e, c) && StrLt(c, d) {
        StrLtTransitive(e, c, d);
      }
      if i < first && StrLt(c, d) {
        StrLtTransitive(c, d, e);
      }
    }
  }

  lemma ChosenBest(player: seq<Alias>, ls: seq<seq<Alias>>, heads: seq<seq<Alias>>, first: nat, ret: Alias)
    requires Ascending(player) && AllAscending(ls) && AllSkipped(ls, heads) && Least(heads, first)
    requires AtLeast(Skipped(player), ret.command) && Bounded(heads, first, ret.command)
    requires ret == (if Skipped(player) == [] || StrLt(heads[first][0].command, Skipped(player)[0].command)
                     then heads[first][0] else Skipped(player)[0])
    ensures Some(ret) == Best(player, ls, ret.command)
    ensures (Skipped(player) == [] || StrLt(heads[first][0].command, Skipped(player)[0].command)) <==>
      Lookup(player, ret.command) == None
  {
    var c := ret.command;
    LookupHead(player, c);
    if Skipped(player) == [] || StrLt(heads[first][0].command, Skipped(player)[0].command) {
      StrLtTrichotomy(c, c);
      LookupHead(ls[first], c);
      forall i | 0 <= i < first
        ensures Lookup(ls[i], c) == None
      {
        LookupHead(ls[i], c);
      }
      FirstInAt(ls, first, c);
    }
  }

  /** Either the player's next alias or the leftmost least of the libraries is returned. */
  lemma Chosen(player: seq<Alias>, ls: seq<seq<Alias>>, heads: seq<seq<Alias>>, first: nat, ret: Alias,
               player': seq<Alias>, taken: seq<seq<Alias>>, ls': seq<seq<Alias>>)
    requires Ascending(player) && AllAscending(ls) && AllSkipped(ls, heads) && Least(heads, first)
    requires var s, p := heads[first], Skipped(player);
      var sys := p == [] || StrLt(s[0].command, p[0].command);
      && ret == (if sys then s[0] else p[0])
      && player' == (if sys then p else p[1..])
      && taken == heads[first := if s[0].command == ret.command then s[1..] else s]
    requires |ls'| == |taken|
    requires forall i :: 0 <= i < |ls'| ==>
      ls'[i] == if LooksAt(i, |ls'|) then WithoutHead(taken[i], ret.command) else taken[i]
    ensures Step(player, ls, player', ls', ret)
    ensures (Skipped(player) == [] || StrLt(heads[first][0].command, Skipped(player)[0].command)) <==>
      Lookup(player, ret.command) == None
  {
    var c := ret.command;
    ChosenLeast(Skipped(player), heads, first, c);
    LookupHead(player, c);
    AdvancedSkipped(player, c);
    if player' != Skipped(player) {
      AdvancedTail(player, Skipped(player), c);
    }
    ChosenBest(player, ls, heads, first, ret);
    forall i | 0 <= i < |ls|
      ensures Advanced(ls[i], ls'[i], c) && |ls'[i]| <= |ls[i]|
    {
      assert heads[i] == Skipped(ls[i]);
      AdvancedSkipped(ls[i], c);
      if taken[i] != heads[i] {
        AdvancedTail(ls[i], heads[i], c);
      }
      if ls'[i] != taken[i] {
        AdvancedTail(ls[i], taken[i], c);
      }
      AdvancedShorter(ls[i], ls'[i], c);
    }
    ChosenAgain(player, ls, heads, first, c, player', ls');
    TotalShrinks(ls, ls');
    if heads[first][0].command == c {
      TotalFalls(ls, ls', first);
    }
  }

  // ---------------------------------------------------------------- a name that is found twice

  lemma TwoLibraries(a: Alias)
    requires !Disabled(a)
    ensures Again([[a], [a]], a.command)
  {
    var ls := [[a], [a]];
    assert !LooksAt(1, |ls|) && ls[..1] == [[a]];
    assert Lookup([a], a.command) == Some(a);
    assert FirstIn([[a]], a.command) == Some(a);
  }

  lemma RepeatedName(found: seq<Alias>)
    requires InOrder(found) && !Strict(found)
    ensures exists i :: 1 <= i < |found| && found[i - 1].command == found[i].command
  {
    var i :| 1 <= i < |found| && !StrLt(found[i - 1].command, found[i].command);
    StrLtTrichotomy(found[i - 1].command, found[i].command);
  }

  /** Two libraries that offer the same name: it is found twice. */
  method FoundTwice(a: Alias) returns (found: seq<Alias>)
    requires !Disabled(a)
    ensures exists i :: 1 <= i < |found| && found[i - 1].command == found[i].command
  {
    var libraries := [[a], [a]];
    TwoLibraries(a);
    var search := new AliasSearch([], libraries);
    found := search.SearchAll();
    RepeatedName(found);
  }

  // ---------------------------------------------------------------- whose alias it is

  /** A list holds this alias, and it is not disabled. */
  ghost predicate Offers(l: seq<Alias>, a: Alias) {
    !a.body.flags.disabled && exists i :: 0 <= i < |l| && l[i] == a
  }

  ghost predicate OffersNone(l: seq<Alias>, n: string) {
    forall a :: Offers(l, a) ==> a.command != n
  }

  lemma {:induction false} LookupMeans(l: seq<Alias>, n: string, a: Alias)
    requires Ascending(l)
    ensures Lookup(l, n) == Some(a) <==> Offers(l, a) && a.command == n
    decreases |l|
  {
    if l != [] {
      LookupMeans(l[1..], n, a);
      if i: nat :| 1 <= i < |l| && l[i] == a {
        AscendingAt(l, 0, i);
        assert l[1..][i - 1] == a;
      }
    }
  }

  lemma LookupNone(l: seq<Alias>, n: string)
    requires Ascending(l)
    ensures Lookup(l, n) == None <==> OffersNone(l, n)
  {
    if Lookup(l, n).Some? {
      LookupMeans(l, n, Lookup(l, n).value);
    } else {
      forall a | Offers(l, a)
        ensures a.command != n
      {
        LookupMeans(l, n, a);
      }
    }
  }

  /** The first of the libraries with an alias of that name, and that alias. */
  ghost predicate FirstOffer(ls: seq<seq<Alias>>, n: string, a: Alias, k: nat) {
    k < |ls| && Offers(ls[k], a) && a.command == n && forall j :: 0 <= j < k ==> OffersNone(ls[j], n)
  }

  lemma {:induction false} FirstInMeans(ls: seq<seq<Alias>>, n: string, a: Alias)
    requires AllAscending(ls)
    ensures FirstIn(ls, n) == Some(a) <==> exists k: nat :: FirstOffer(ls, n, a, k)
    decreases |ls|
  {
    if ls != [] {
      LookupMeans(ls[0], n, a);
      LookupNone(ls[0], n);
      FirstInMeans(ls[1..], n, a);
      if k: nat :| FirstOffer(ls[1..], n, a, k) && OffersNone(ls[0], n) {
        assert FirstOffer(ls, n, a, k + 1);
      }
      if Offers(ls[0], a) && a.command == n {
        assert FirstOffer(ls, n, a, 0);
      }
      if k: nat :| FirstOffer(ls, n, a, k) && k > 0 {
        assert forall j :: 0 <= j < k - 1 ==> ls[1..][j] == ls[j + 1];
        assert FirstOffer(ls[1..], n, a, k - 1);
      }
    }
  }

  /** The alias that a name stands for is the player's own, if he has one that is not disabled, and
      otherwise that of the first library that has one. */
  lemma BestMeans(player: seq<Alias>, ls: seq<seq<Alias>>, n: string, a: Alias)
    requires Ascending(player) && AllAscending(ls)
    ensures Best(player, ls, n) == Some(a) <==>
      || (Offers(player, a) && a.command == n)
      || (OffersNone(player, n) && exists k: nat :: FirstOffer(ls, n, a, k))
  {
    LookupMeans(player, n, a);
    LookupNone(player, n);
    FirstInMeans(ls, n, a);
  }
}

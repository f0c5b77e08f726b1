/** The ring of those who logged on last. */
module LastLogon {
  import opened Options

  const LAST_LOGON_NAME_SZ := 64

  // ---------------------------------------------------------------- the most recent names

  function Remove(s: seq<string>, x: string): seq<string> {
    if s == [] then [] else if s[0] == x then s[1..] else [s[0]] + Remove(s[1..], x)
  }

  function Newest(s: seq<string>): seq<string> {
    if |s| > LAST_LOGON_NAME_SZ then s[|s| - LAST_LOGON_NAME_SZ..] else s
  }

  predicate Contains(s: seq<string>, x: string) {
    s != [] && (s[0] == x || Contains(s[1..], x))
  }

  predicate Distinct(s: seq<string>) {
    s != [] ==> !Contains(s[1..], s[0]) && Distinct(s[1..])
  }

  /** The names of a history, each once, in the order in which they were last used. */
  function LastUses(history: seq<string>): seq<string> {
    if history == [] then []
    else
      var name := history[|history| - 1];
      Remove(LastUses(history[..|history| - 1]), name) + [name]
  }

  lemma {:induction false} ContainsAt(s: seq<string>, i: nat)
    requires i < |s|
    ensures Contains(s, s[i])
    decreases i
  {
    if i > 0 {
      ContainsAt(s[1..], i - 1);
    }
  }

  lemma {:induction false} ContainsIndex(s: seq<string>, x: string) returns (i: nat)
    requires Contains(s, x)
    ensures i < |s| && s[i] == x
  {
    if s[0] == x {
      i := 0;
    } else {
      i := ContainsIndex(s[1..], x);
      i := i + 1;
    }
  }

  lemma {:induction false} DistinctAt(s: seq<string>, i: nat, j: nat)
    requires Distinct(s) && i < j < |s|
    ensures s[i] != s[j]
    decreases i
  {
    if i == 0 {
      ContainsAt(s[1..], j - 1);
    } else {
      DistinctAt(s[1..], i - 1, j - 1);
    }
  }

  lemma {:induction false} RemoveContains(s: seq<string>, x: string, y: string)
    requires Distinct(s)
    ensures Contains(Remove(s, x), y) <==> Contains(s, y) && y != x
    ensures Distinct(Remove(s, x))
    decreases |s|
  {
    if s != [] && s[0] != x {
      RemoveContains(s[1..], x, y);
      RemoveContains(s[1..], x, s[0]);
      assert Remove(s, x)[1..] == Remove(s[1..], x);
    }
  }

  lemma {:induction false} SnocContains(s: seq<string>, x: string, y: string)
    ensures Contains(s + [x], y) <==> Contains(s, y) || y == x
    ensures Distinct(s) && !Contains(s, x) ==> Distinct(s + [x])
    decreases |s|
  {
    if s == [] {
      assert [] + [x] == [x] && [x][1..] == [];
    } else {
      SnocContains(s[1..], x, y);
      SnocContains(s[1..], x, s[0]);
      assert (s + [x])[1..] == s[1..] + [x];
    }
  }

  /** When a name was last used; -1 for never. */
  function LastIndex(history: seq<string>, name: string): (i: int)
    ensures -1 <= i < |history|
  {
    if history == [] then -1
    else if history[|history| - 1] == name then |history| - 1
    else LastIndex(history[..|history| - 1], name)
  }

  /** Each name was last used before the one behind it. */
  predicate InOrder(history: seq<string>, s: seq<string>) {
    |s| >= 2 ==> LastIndex(history, s[0]) < LastIndex(history, s[1]) && InOrder(history, s[1..])
  }

  lemma {:induction false} HeadIsOldest(history: seq<string>, s: seq<string>, i: nat)
    requires InOrder(history, s) && 1 <= i < |s|
    ensures LastIndex(history, s[0]) < LastIndex(history, s[i])
    decreases i
  {
    if i > 1 {
      HeadIsOldest(history, s[1..], i - 1);
    }
  }

  lemma {:induction false} RemoveInOrder(history: seq<string>, s: seq<string>, x: string)
    requires InOrder(history, s)
    ensures InOrder(history, Remove(s, x))
    decreases |s|
  {
    if s != [] && s[0] != x {
      RemoveInOrder(history, s[1..], x);
      var r := Remove(s[1..], x);
      assert Remove(s, x)[1..] == r;
      if r != [] {
        HeadIsOldest(history, s, if s[1] == x then 2 else 1);
      }
    }
  }

  lemma {:induction false} InOrderSnoc(history: seq<string>, x: string, s: seq<string>)
    requires InOrder(history, s) && !Contains(s, x)
    ensures InOrder(history + [x], s + [x])
    decreases |s|
  {
    assert (history + [x])[..|history|] == history;
    if s == [] {
      assert |s + [x]| == 1;
    } else {
      InOrderSnoc(history, x, s[1..]);
      assert (s + [x])[1..] == s[1..] + [x];
    }
  }

  /** What the reference list is: the names of the history, each once, by their last use. */
  lemma {:induction false} LastUsesAre(history: seq<string>, name: string)
    ensures Distinct(LastUses(history)) && InOrder(history, LastUses(history))
    ensures Contains(LastUses(history), name) <==> LastIndex(history, name) >= 0
    decreases |history|
  {
    if history != [] {
      var front, x := history[..|history| - 1], history[|history| - 1];
      var before := LastUses(front);
      LastUsesAre(front, name);
      RemoveContains(before, x, name);
      RemoveContains(before, x, x);
      RemoveInOrder(front, before, x);
      SnocContains(Remove(before, x), x, name);
      InOrderSnoc(front, x, Remove(before, x));
      assert front + [x] == history;
    }
  }

  // ---------------------------------------------------------------- keeping the newest only

  lemma {:induction false} RemoveAbsent(s: seq<string>, x: string)
    requires !Contains(s, x)
    ensures Remove(s, x) == s
    decreases |s|
  {
    if s != [] {
      RemoveAbsent(s[1..], x);
    }
  }

  lemma {:induction false} RemoveAt(s: seq<string>, i: nat)
    requires Distinct(s) && i < |s|
    ensures Remove(s, s[i]) == s[..i] + s[i + 1..]
    decreases i
  {
    if i > 0 {
      DistinctAt(s, 0, i);
      RemoveAt(s[1..], i - 1);
      assert s[1..][..i - 1] == s[..i][1..] && s[1..][i..] == s[i + 1..];
    }
  }

  lemma {:induction false} SuffixDistinct(s: seq<string>, k: nat)
    requires Distinct(s) && k <= |s|
    ensures Distinct(s[k..])
    decreases k
  {
    if k > 0 {
      SuffixDistinct(s[1..], k - 1);
      assert s[1..][k - 1..] == s[k..];
    }
  }

  /** Forgetting what is too old before a name is used again, or after it, is the same. */
  lemma NewestTwice(s: seq<string>, x: string)
    requires Distinct(s)
    ensures Newest(Remove(Newest(s), x) + [x]) == Newest(Remove(s, x) + [x])
  {
    if |s| > LAST_LOGON_NAME_SZ {
      if Contains(s, x) {
        UsedBefore(s, x);
      } else {
        NeverUsed(s, x);
      }
    }
  }

  lemma UsedBefore(s: seq<string>, x: string)
    requires Distinct(s) && |s| > LAST_LOGON_NAME_SZ && Contains(s, x)
    ensures Newest(Remove(Newest(s), x) + [x]) == Newest(Remove(s, x) + [x])
  {
    var k := |s| - LAST_LOGON_NAME_SZ;
    var i := ContainsIndex(s, x);
    if i >= k {
      UsedRecently(s, x, i, k);
    } else {
      UsedLongAgo(s, x, i, k);
    }
  }

  lemma UsedRecently(s: seq<string>, x: string, i: nat, k: nat)
    requires Distinct(s) && |s| == k + LAST_LOGON_NAME_SZ && k <= i < |s| && s[i] == x
    ensures Newest(Remove(s[k..], x) + [x]) == Newest(Remove(s, x) + [x])
  {
    RemoveAt(s, i);
    SuffixDistinct(s, k);
    RemoveAt(s[k..], i - k);
    ConcatDropped(s, x, i, k);
  }

  lemma UsedLongAgo(s: seq<string>, x: string, i: nat, k: nat)
    requires Distinct(s) && |s| == k + LAST_LOGON_NAME_SZ && i < k && s[i] == x
    ensures Newest(Remove(s[k..], x) + [x]) == Newest(Remove(s, x) + [x])
  {
    RemoveAt(s, i);
    OldNotRecent(s, x, i, k);
    RemoveAbsent(s[k..], x);
    ConcatOld(s, x, i, k);
  }

  lemma OldNotRecent(s: seq<string>, x: string, i: nat, k: nat)
    requires Distinct(s) && i < k <= |s| && s[i] == x
    ensures !Contains(s[k..], x)
  {
    if Contains(s[k..], x) {
      var j := ContainsIndex(s[k..], x);
      DistinctAt(s, i, k + j);
    }
  }

  lemma NeverUsed(s: seq<string>, x: string)
    requires |s| > LAST_LOGON_NAME_SZ && !Contains(s, x)
    ensures Newest(Remove(Newest(s), x) + [x]) == Newest(Remove(s, x) + [x])
  {
    var k := |s| - LAST_LOGON_NAME_SZ;
    if Contains(s[k..], x) {
      var j := ContainsIndex(s[k..], x);
      ContainsAt(s, k + j);
    }
    RemoveAbsent(s[k..], x);
    RemoveAbsent(s, x);
    ConcatNew(s, x, k);
  }

  lemma ConcatDropped(s: seq<string>, x: string, i: nat, k: nat)
    requires k <= i < |s| && |s| - k == LAST_LOGON_NAME_SZ
    ensures Newest(s[k..][..i - k] + s[k..][i - k + 1..] + [x]) == Newest(s[..i] + s[i + 1..] + [x])
  {
    var a, b := s[k..][..i - k] + s[k..][i - k + 1..] + [x], s[..i] + s[i + 1..] + [x];
    assert |a| == LAST_LOGON_NAME_SZ && |b| == |a| + k && b[k..] == a;
  }

  lemma ConcatOld(s: seq<string>, x: string, i: nat, k: nat)
    requires i < k < |s| && |s| - k == LAST_LOGON_NAME_SZ
    ensures Newest(s[k..] + [x]) == Newest(s[..i] + s[i + 1..] + [x])
  {
    var a, b := s[k..] + [x], s[..i] + s[i + 1..] + [x];
    assert |a| == LAST_LOGON_NAME_SZ + 1 && |b| == |s|;
    assert a[1..] == b[k..];
  }

  lemma ConcatNew(s: seq<string>, x: string, k: nat)
    requires k <= |s| && |s| - k == LAST_LOGON_NAME_SZ
    ensures Newest(s[k..] + [x]) == Newest(s + [x])
  {
    assert (s[k..] + [x])[1..] == (s + [x])[k + 1..];
  }

  /** A run of logons. */
  function AddAll(s: seq<string>, history: seq<string>): seq<string> {
    if history == [] then s
    else Newest(Remove(AddAll(s, history[..|history| - 1]), history[|history| - 1]) + [history[|history| - 1]])
  }

  /** From an empty ring on, it holds the newest of the names by their last use. */
  lemma {:induction false} RingIsNewest(history: seq<string>)
    ensures AddAll([], history) == Newest(LastUses(history))
    decreases |history|
  {
    if history != [] {
      var front, x := history[..|history| - 1], history[|history| - 1];
      RingIsNewest(front);
      LastUsesAre(front, x);
      NewestTwice(LastUses(front), x);
    }
  }

  // ---------------------------------------------------------------- the ring

  /** Where the entry stands that is `t` steps round from the count. */
  function Slot(count: nat, t: nat): (i: nat)
    requires count < LAST_LOGON_NAME_SZ && t < LAST_LOGON_NAME_SZ
    ensures i < LAST_LOGON_NAME_SZ
  {
    if count + t < LAST_LOGON_NAME_SZ then count + t else count + t - LAST_LOGON_NAME_SZ
  }

  lemma NextSlot(count: nat, t: nat)
    requires count < LAST_LOGON_NAME_SZ && t < LAST_LOGON_NAME_SZ
    ensures (Slot(count, t) + 1) % LAST_LOGON_NAME_SZ ==
      if t + 1 == LAST_LOGON_NAME_SZ then count else Slot(count, t + 1)
  {
  }

  lemma NextCount(count: nat, t: nat)
    requires count < LAST_LOGON_NAME_SZ && t < LAST_LOGON_NAME_SZ
    ensures Slot((count + 1) % LAST_LOGON_NAME_SZ, t) ==
      if t + 1 == LAST_LOGON_NAME_SZ then count else Slot(count, t + 1)
  {
  }

  /** So many empty entries, and then the names. */
  function Padded(recent: seq<string>): (r: seq<string>)
    requires |recent| <= LAST_LOGON_NAME_SZ
    ensures |r| == LAST_LOGON_NAME_SZ
    ensures forall t {:trigger r[t]} :: 0 <= t < LAST_LOGON_NAME_SZ ==>
      r[t] == if t < LAST_LOGON_NAME_SZ - |recent| then "" else recent[t - (LAST_LOGON_NAME_SZ - |recent|)]
  {
    seq(LAST_LOGON_NAME_SZ, t requires 0 <= t < LAST_LOGON_NAME_SZ =>
      if t < LAST_LOGON_NAME_SZ - |recent| then "" else recent[t - (LAST_LOGON_NAME_SZ - |recent|)])
  }

  lemma NotPadded(recent: seq<string>, name: string)
    requires |recent| <= LAST_LOGON_NAME_SZ
    requires forall t {:trigger Padded(recent)[t]} :: 0 <= t < LAST_LOGON_NAME_SZ ==> Padded(recent)[t] != name
    ensures !Contains(recent, name)
  {
    forall i | 0 <= i < |recent|
      ensures recent[i] != name
    {
      assert Padded(recent)[i + (LAST_LOGON_NAME_SZ - |recent|)] == recent[i];
    }
    NotContained(recent, name);
  }

  lemma {:induction false} NotContained(s: seq<string>, x: string)
    requires forall i :: 0 <= i < |s| ==> s[i] != x
    ensures !Contains(s, x)
  {
    if s != [] {
      NotContained(s[1..], x);
    }
  }

  /** The entry at position t goes, and the name comes to the end. */
  function Moved(r: seq<string>, t: nat, name: string): (m: seq<string>)
    requires t < |r|
    ensures |m| == |r|
    ensures forall u {:trigger m[u]} :: 0 <= u < |r| ==>
      m[u] == if u < t then r[u] else if u + 1 < |r| then r[u + 1] else name
  {
    r[..t] + r[t + 1..] + [name]
  }

  lemma PaddedMoved(recent: seq<string>, i: nat, name: string)
    requires |recent| <= LAST_LOGON_NAME_SZ && i < |recent|
    ensures Padded(Moved(recent, i, name)) == Moved(Padded(recent), i + (LAST_LOGON_NAME_SZ - |recent|), name)
  {
    var a, b := Padded(Moved(recent, i, name)), Moved(Padded(recent), i + (LAST_LOGON_NAME_SZ - |recent|), name);
    forall u | 0 <= u < LAST_LOGON_NAME_SZ
      ensures a[u] == b[u]
    {
    }
  }

  /** The ring after a name that it holds has been moved to the end. */
  lemma PaddedAgain(recent: seq<string>, t: nat, name: string, after: seq<string>)
    requires |recent| <= LAST_LOGON_NAME_SZ && Distinct(recent)
    requires LAST_LOGON_NAME_SZ - |recent| <= t < LAST_LOGON_NAME_SZ
    requires recent[t - (LAST_LOGON_NAME_SZ - |recent|)] == name
    requires after == Newest(Remove(recent, name) + [name])
    ensures |after| <= LAST_LOGON_NAME_SZ && Padded(after) == Moved(Padded(recent), t, name)
  {
    var i := t - (LAST_LOGON_NAME_SZ - |recent|);
    RemoveAt(recent, i);
    PaddedMoved(recent, i, name);
    assert after == Moved(recent, i, name);
  }

  /** The ring after a new name has taken the oldest place. */
  lemma PaddedNew(recent: seq<string>, name: string, after: seq<string>)
    requires |recent| <= LAST_LOGON_NAME_SZ && !Contains(recent, name)
    requires after == Newest(Remove(recent, name) + [name])
    ensures |after| <= LAST_LOGON_NAME_SZ && Padded(after) == Moved(Padded(recent), 0, name)
  {
    RemoveAbsent(recent, name);
    if |recent| == LAST_LOGON_NAME_SZ {
      PaddedMoved(recent, 0, name);
      assert after == Moved(recent, 0, name);
    } else {
      PaddedMore(recent, name);
    }
  }

  lemma PaddedMore(recent: seq<string>, name: string)
    requires |recent| < LAST_LOGON_NAME_SZ
    ensures Padded(recent + [name]) == Moved(Padded(recent), 0, name)
  {
    var a, b := Padded(recent + [name]), Moved(Padded(recent), 0, name);
    forall u | 0 <= u < LAST_LOGON_NAME_SZ
      ensures a[u] == b[u]
    {
    }
  }

  lemma StillDistinct(recent: seq<string>, name: string)
    requires Distinct(recent) && !Contains(recent, "") && name != ""
    ensures var r := Newest(Remove(recent, name) + [name]);
      Distinct(r) && !Contains(r, "")
  {
    var all := Remove(recent, name) + [name];
    RemoveContains(recent, name, name);
    RemoveContains(recent, name, "");
    SnocContains(Remove(recent, name), name, "");
    if |all| > LAST_LOGON_NAME_SZ {
      var k := |all| - LAST_LOGON_NAME_SZ;
      SuffixDistinct(all, k);
      if Contains(all[k..], "") {
        var j := ContainsIndex(all[k..], "");
        ContainsAt(all, k + j);
      }
    }
  }

  class Ring {
    const names: array<string>
    var count: nat

    // the names, the oldest first
    ghost var recent: seq<string>

    constructor ()
      ensures Valid() && recent == []
    {
      names := new string[LAST_LOGON_NAME_SZ](i => "");
      count, recent := 0, [];
    }

    /** Round from the count, the ring holds `r`. */
    ghost predicate Holds(r: seq<string>)
      reads this`count, names
    {
      && names.Length == LAST_LOGON_NAME_SZ == |r| && count < LAST_LOGON_NAME_SZ
      && forall t {:trigger Slot(count, t)} :: 0 <= t < LAST_LOGON_NAME_SZ ==> names[Slot(count, t)] == r[t]
    }

    ghost predicate Valid()
      reads this, names
    {
      && |recent| <= LAST_LOGON_NAME_SZ && Holds(Padded(recent))
      && Distinct(recent) && !Contains(recent, "")
    }

    /** `last_logon_find`: how many steps round the name stands, and where. */
    method Find(name: string) returns (offset: Option<nat>, ghost t: nat)
      requires Valid() && name != ""
      ensures offset == None ==> !Contains(recent, name)
      ensures offset.Some? ==> t < LAST_LOGON_NAME_SZ && offset.value == Slot(count, t)
      ensures offset.Some? ==> t >= LAST_LOGON_NAME_SZ - |recent| && recent[t - (LAST_LOGON_NAME_SZ - |recent|)] == name
    {
      ghost var r := Padded(recent);
      var tmp := count;
      t := 0;
      while true
        invariant t < LAST_LOGON_NAME_SZ && tmp == Slot(count, t)
        invariant forall i :: 0 <= i < t ==> r[i] != name
        decreases LAST_LOGON_NAME_SZ - t
      {
        assert names[tmp] == r[t];
        if names[tmp] != "" && name == names[tmp] {
          return Some(tmp), t;
        }
        NextSlot(count, t);
        tmp := (tmp + 1) % LAST_LOGON_NAME_SZ;
        t := t + 1;
        if tmp == count {
          break;
        }
      }
      NotPadded(recent, name);
      return None, 0;
    }

    /** The loop that moves the later names up by one. */
    method MoveUp(offset0: nat, ghost t0: nat, ghost r: seq<string>) returns (prev: nat)
      requires Holds(r) && t0 < LAST_LOGON_NAME_SZ - 1 && offset0 == Slot(count, t0)
      modifies names
      ensures prev == Slot(count, LAST_LOGON_NAME_SZ - 1)
      ensures Holds(Moved(r, t0, r[LAST_LOGON_NAME_SZ - 1]))
    {
      NextSlot(count, t0);
      prev := offset0;
      var offset := (offset0 + 1) % LAST_LOGON_NAME_SZ;
      ghost var t := t0 + 1;
      while offset != count
        invariant t0 < t <= LAST_LOGON_NAME_SZ && prev == Slot(count, t - 1)
        invariant offset == if t == LAST_LOGON_NAME_SZ then count else Slot(count, t)
        invariant forall i {:trigger Slot(count, i)} :: 0 <= i < LAST_LOGON_NAME_SZ ==>
          names[Slot(count, i)] == if t0 <= i < t - 1 then r[i + 1] else r[i]
        decreases LAST_LOGON_NAME_SZ - t
      {
        NextSlot(count, t);
        assert offset == Slot(count, t) && names[offset] == r[t];
        names[prev] := names[offset];
        prev := offset;
        offset := (offset + 1) % LAST_LOGON_NAME_SZ;
        t := t + 1;
      }
    }

    /** A name that the ring holds goes to its end. */
    method AddAgain(offset0: nat, name: string, ghost t: nat, ghost r: seq<string>)
      requires Holds(r) && t < LAST_LOGON_NAME_SZ && offset0 == Slot(count, t) && r[t] == name
      modifies names
      ensures Holds(Moved(r, t, name))
    {
      NextSlot(count, t);
      var offset := (offset0 + 1) % LAST_LOGON_NAME_SZ;
      if offset == count {
        return;
      }
      var prev := MoveUp(offset0, t, r);
      names[prev] := name;
    }

    /** A name that is not there takes the place of the oldest. */
    method AddNew(name: string, ghost r: seq<string>)
      requires Holds(r)
      modifies this`count, names
      ensures Holds(Moved(r, 0, name))
    {
      ghost var was := count;
      names[count] := name;
      count := count + 1;
      count := count % LAST_LOGON_NAME_SZ;
      forall u {:trigger Slot(count, u)} | 0 <= u < LAST_LOGON_NAME_SZ
        ensures names[Slot(count, u)] == Moved(r, 0, name)[u]
      {
        NextCount(was, u);
        if u + 1 < LAST_LOGON_NAME_SZ {
          assert old(names[Slot(was, u + 1)]) == r[u + 1];
        }
      }
    }

    /** `last_logon_add`: the name is the newest now, once, and the oldest may go. */
    method Add(name: string)
      requires Valid() && name != ""
      modifies this, names
      ensures Valid() && recent == Newest(Remove(old(recent), name) + [name])
    {
      ghost var after := Newest(Remove(recent, name) + [name]);
      StillDistinct(recent, name);
      var offset;
      ghost var t;
      offset, t := Find(name);
      if offset.Some? {
        PaddedAgain(recent, t, name, after);
        AddAgain(offset.value, name, t, Padded(recent));
      } else {
        PaddedNew(recent, name, after);
        AddNew(name, Padded(recent));
      }
      recent := after;
    }

    /** Any run of logons. */
    method AddEach(history: seq<string>)
      requires Valid() && forall i :: 0 <= i < |history| ==> history[i] != ""
      modifies this, names
      ensures Valid() && recent == AddAll(old(recent), history)
    {
      var i := 0;
      while i < |history|
        invariant i <= |history| && Valid() && recent == AddAll(old(recent), history[..i])
      {
        Add(history[i]);
        assert history[..i + 1][..i] == history[..i];
        i := i + 1;
      }
      assert history[..i] == history;
    }
  }
}

/** The networks that are let in or kept out: a list sorted by descending mask length, of which
    the first entry that matches an address decides.
 */
module NetList {
  import opened Options
  import opened Links

  const AUTH_PLAYER_NET_OPEN := 1
  const MASK_MAX := 32

  type Octet = n: nat | n < 256

  datatype Address = Address(o0: Octet, o1: Octet, o2: Octet, o3: Octet)

  type Mask = n: nat | n <= MASK_MAX

  datatype Net = Net(ips: Address, ipMask: Mask, authType: int, tmp: bool)

  // ---------------------------------------------------------------- masks

  /** AUTH_PLAYER_NET_MASK_NUM, between 0 and 8: the bits of the mask that fall into octet z. */
  function BitsIn(mask: Mask, z: nat): (n: nat)
    ensures n <= 8
  {
    if mask <= 8 * z then 0 else if mask >= 8 * z + 8 then 8 else mask - 8 * z
  }

  /** `auth_player_ip_masks[n]` is one less. */
  function Size(n: nat): (r: nat)
    requires n <= 8
    ensures 1 <= r <= 256
  {
    if n == 0 then 1 else if n == 1 then 2 else if n == 2 then 4 else if n == 3 then 8 else if n == 4 then 16
    else if n == 5 then 32 else if n == 6 then 64 else if n == 7 then 128 else 256
  }

  /** `x & auth_player_ip_masks[n]` */
  function Low(x: Octet, n: nat): Octet
    requires n <= 8
  {
    x % Size(n)
  }

  /** AUTH_PLAYER_NET_MASK of each octet. */
  function Masked(a: Address, mask: Mask): Address {
    Address(Low(a.o0, BitsIn(mask, 0)), Low(a.o1, BitsIn(mask, 1)),
            Low(a.o2, BitsIn(mask, 2)), Low(a.o3, BitsIn(mask, 3)))
  }

  /** AUTH_PLAYER_NET_MASK_EQ */
  predicate Matches(ips: Address, net: Net) {
    Masked(ips, net.ipMask) == Masked(net.ips, net.ipMask)
  }

  lemma MulAtLeast(m: int, s: int)
    requires m >= 1 && s >= 0
    ensures m * s >= s
  {
  }

  lemma DivModUnique(x: int, s: int, q: int, r: int)
    requires s > 0 && x == q * s + r && 0 <= r < s
    ensures x % s == r
  {
    var p := x / s;
    assert x == p * s + x % s;
    if p > q {
      MulAtLeast(p - q, s);
    } else if p < q {
      MulAtLeast(q - p, s);
    }
  }

  lemma ModTwice(x: nat, s: nat)
    requires s > 0
    ensures (x % (2 * s)) % s == x % s
  {
    var q, r := x / (2 * s), x % (2 * s);
    var t, u := r / s, r % s;
    assert x == (2 * s) * q + r && r == t * s + u;
    assert (2 * s) * q == (2 * q) * s;
    assert (2 * q) * s + t * s == (2 * q + t) * s;
    DivModUnique(x, s, 2 * q + t, u);
  }

  lemma LowStep(x: Octet, n: nat)
    requires 1 <= n <= 8
    ensures Low(Low(x, n), n - 1) == Low(x, n - 1)
  {
    ModTwice(x, Size(n - 1));
    assert Size(n) == 2 * Size(n - 1);
  }

  lemma {:induction false} LowNested(x: Octet, n: nat, m: nat)
    requires m <= n <= 8
    ensures Low(Low(x, n), m) == Low(x, m)
    decreases n
  {
    if m < n {
      LowStep(x, n);
      LowNested(x, n - 1, m);
      LowNested(Low(x, n), n - 1, m);
    } else {
      LowTwice(x, n);
    }
  }

  lemma LowTwice(x: Octet, n: nat)
    requires n <= 8
    ensures Low(Low(x, n), n) == Low(x, n)
  {
  }

  /** Shorter masks look at less: masking twice is masking by the shorter. */
  lemma MaskedNested(a: Address, long: Mask, short: Mask)
    requires short <= long
    ensures Masked(Masked(a, long), short) == Masked(a, short)
  {
    LowNested(a.o0, BitsIn(long, 0), BitsIn(short, 0));
    LowNested(a.o1, BitsIn(long, 1), BitsIn(short, 1));
    LowNested(a.o2, BitsIn(long, 2), BitsIn(short, 2));
    LowNested(a.o3, BitsIn(long, 3), BitsIn(short, 3));
  }

  /** Networks are nested or disjoint: an address in the longer network is in the shorter one
      exactly if the longer network is. */
  lemma Nested(ips: Address, long: Net, short: Net)
    requires short.ipMask <= long.ipMask && Matches(ips, long)
    ensures Matches(ips, short) <==> Matches(long.ips, short)
  {
    MaskedNested(ips, long.ipMask, short.ipMask);
    MaskedNested(long.ips, long.ipMask, short.ipMask);
  }

  /** Section 3.1 of RFC 4632: the mask counts the high-order bits of the address. */
  predicate PrefixMatches(a: Address, b: Address, mask: Mask) {
    && High(a.o0, BitsIn(mask, 0)) == High(b.o0, BitsIn(mask, 0))
    && High(a.o1, BitsIn(mask, 1)) == High(b.o1, BitsIn(mask, 1))
    && High(a.o2, BitsIn(mask, 2)) == High(b.o2, BitsIn(mask, 2))
    && High(a.o3, BitsIn(mask, 3)) == High(b.o3, BitsIn(mask, 3))
  }

  function High(x: Octet, n: nat): nat
    requires n <= 8
  {
    x / Size(8 - n)
  }

  /** An address with one octet of 128, in octet z. */
  function HalfAt(z: nat): Address {
    Address(if z == 0 then 128 else 0, if z == 1 then 128 else 0, if z == 2 then 128 else 0, if z == 3 then 128 else 0)
  }

  const ZERO := Address(0, 0, 0, 0)

  /** The masks of the talker count the low-order bits of each octet, so they agree with the
      standard for all addresses exactly if the mask ends with an octet. */
  lemma AgreesWithPrefix(mask: Mask)
    ensures (forall a: Address, b: Address ::
      Masked(a, mask) == Masked(b, mask) <==> PrefixMatches(a, b, mask)) <==> mask % 8 == 0
  {
    if mask % 8 == 0 {
      forall a: Address, b: Address
        ensures Masked(a, mask) == Masked(b, mask) <==> PrefixMatches(a, b, mask)
      {
        WholeOctets(mask, a, b);
      }
    } else {
      var z := mask / 8;
      HalfDiffers(mask, z);
      assert !PrefixMatches(HalfAt(z), ZERO, mask);
    }
  }

  lemma WholeOctet(x: Octet, y: Octet, n: nat)
    requires n == 0 || n == 8
    ensures Low(x, n) == Low(y, n) <==> High(x, n) == High(y, n)
  {
  }

  lemma WholeOctets(mask: Mask, a: Address, b: Address)
    requires mask % 8 == 0
    ensures Masked(a, mask) == Masked(b, mask) <==> PrefixMatches(a, b, mask)
  {
    WholeOctet(a.o0, b.o0, BitsIn(mask, 0));
    WholeOctet(a.o1, b.o1, BitsIn(mask, 1));
    WholeOctet(a.o2, b.o2, BitsIn(mask, 2));
    WholeOctet(a.o3, b.o3, BitsIn(mask, 3));
  }

  lemma HalfDiffers(mask: Mask, z: nat)
    requires mask % 8 != 0 && z == mask / 8
    ensures Masked(HalfAt(z), mask) == Masked(ZERO, mask)
    ensures !PrefixMatches(HalfAt(z), ZERO, mask)
  {
    var n := BitsIn(mask, z);
    assert 1 <= n <= 7;
    assert Low(128, n) == 0 && High(128, n) != 0;
  }

  // ---------------------------------------------------------------- the list and its answer

  predicate Descending(nets: seq<Net>) {
    |nets| >= 2 ==> nets[0].ipMask >= nets[1].ipMask && Descending(nets[1..])
  }

  /** The first entry that matches. */
  function FirstMatch(nets: seq<Net>, ips: Address): (r: Option<Net>)
    ensures r.Some? ==> Matches(ips, r.value)
  {
    if nets == [] then None
    else if Matches(ips, nets[0]) then Some(nets[0])
    else FirstMatch(nets[1..], ips)
  }

  /** `auth_player_net_do` */
  function Answer(nets: seq<Net>, ips: Address): int {
    match FirstMatch(nets, ips)
    case None => AUTH_PLAYER_NET_OPEN
    case Some(net) => net.authType
  }

  lemma {:induction false} HeadIsLongest(nets: seq<Net>, i: nat)
    requires Descending(nets) && i < |nets|
    ensures nets[0].ipMask >= nets[i].ipMask
    decreases i
  {
    if i > 0 {
      HeadIsLongest(nets[1..], i - 1);
    }
  }

  /** The longest mask decides: no entry that matches has a longer one. */
  lemma {:induction false} LongestMatch(nets: seq<Net>, ips: Address, i: nat)
    requires Descending(nets) && i < |nets| && Matches(ips, nets[i])
    ensures FirstMatch(nets, ips).Some? && FirstMatch(nets, ips).value.ipMask >= nets[i].ipMask
    decreases i
  {
    if Matches(ips, nets[0]) {
      HeadIsLongest(nets, i);
    } else {
      LongestMatch(nets[1..], ips, i - 1);
    }
  }

  lemma {:induction false} FirstMatchIsThere(nets: seq<Net>, ips: Address) returns (i: nat)
    requires FirstMatch(nets, ips).Some?
    ensures i < |nets| && nets[i] == FirstMatch(nets, ips).value
    ensures forall j :: 0 <= j < i ==> !Matches(ips, nets[j])
  {
    if Matches(ips, nets[0]) {
      i := 0;
    } else {
      i := FirstMatchIsThere(nets[1..], ips);
      forall j | 0 <= j < i + 1
        ensures !Matches(ips, nets[j])
      {
        assert j > 0 ==> nets[j] == nets[1..][j - 1];
      }
      i := i + 1;
    }
  }

  /** Where a new entry goes: in front of the others of its mask. */
  function Inserted(nets: seq<Net>, net: Net): seq<Net> {
    if nets != [] && net.ipMask < nets[0].ipMask then [nets[0]] + Inserted(nets[1..], net) else [net] + nets
  }

  predicate PlaceOf(nets: seq<Net>, ipMask: Mask, at: nat) {
    && at <= |nets|
    && (forall i :: 0 <= i < at ==> ipMask < nets[i].ipMask)
    && (at < |nets| ==> ipMask >= nets[at].ipMask)
  }

  lemma {:induction false} InsertedDescending(nets: seq<Net>, net: Net)
    requires Descending(nets)
    ensures Descending(Inserted(nets, net))
    ensures Inserted(nets, net)[0].ipMask ==
      if nets != [] && net.ipMask < nets[0].ipMask then nets[0].ipMask else net.ipMask
    decreases |nets|
  {
    if nets != [] && net.ipMask < nets[0].ipMask {
      InsertedDescending(nets[1..], net);
      assert ([nets[0]] + Inserted(nets[1..], net))[1..] == Inserted(nets[1..], net);
    } else {
      assert ([net] + nets)[1..] == nets;
    }
  }

  /** A new entry answers for what it matches, unless a longer mask does. */
  lemma {:induction false} InsertedMatch(nets: seq<Net>, net: Net, ips: Address)
    requires Descending(nets)
    ensures var was := FirstMatch(nets, ips);
      FirstMatch(Inserted(nets, net), ips) ==
        if Matches(ips, net) && (was == None || was.value.ipMask <= net.ipMask) then Some(net) else was
    decreases |nets|
  {
    if nets != [] && net.ipMask < nets[0].ipMask {
      InsertedMatch(nets[1..], net, ips);
      assert ([nets[0]] + Inserted(nets[1..], net))[1..] == Inserted(nets[1..], net);
    } else {
      assert ([net] + nets)[1..] == nets;
      if FirstMatch(nets, ips).Some? {
        var i := FirstMatchIsThere(nets, ips);
        HeadIsLongest(nets, i);
      }
    }
  }

  lemma {:induction false} WithoutDescending(nets: seq<Net>, k: nat)
    requires Descending(nets) && k < |nets|
    ensures Descending(nets[..k] + nets[k + 1..])
    decreases k
  {
    var r := nets[..k] + nets[k + 1..];
    if k == 0 {
      assert r == nets[1..];
    } else {
      WithoutDescending(nets[1..], k - 1);
      assert r[1..] == nets[1..][..k - 1] + nets[1..][k..];
      if |r| >= 2 {
        HeadIsLongest(nets, if k == 1 then 2 else 1);
      }
    }
  }

  /** Deleting an entry that does not match, or is not the first to, changes nothing. */
  lemma {:induction false} WithoutMatch(nets: seq<Net>, k: nat, ips: Address)
    requires k < |nets| && (Matches(ips, nets[k]) ==> FirstMatch(nets[..k], ips).Some?)
    ensures FirstMatch(nets[..k] + nets[k + 1..], ips) == FirstMatch(nets, ips)
    decreases k
  {
    var r := nets[..k] + nets[k + 1..];
    if k == 0 {
      assert r == nets[1..];
    } else if !Matches(ips, nets[0]) {
      assert nets[..k][1..] == nets[1..][..k - 1];
      WithoutMatch(nets[1..], k - 1, ips);
      assert r[1..] == nets[1..][..k - 1] + nets[1..][k..];
    }
  }

  // ---------------------------------------------------------------- saving and loading

  /** The entries that `auth_player_save` writes. */
  function Permanent(nets: seq<Net>): seq<Net> {
    if nets == [] then []
    else (if nets[0].tmp then [] else [nets[0]]) + Permanent(nets[1..])
  }

  /** What adding entries to an empty list in their order gives. */
  function AddedAll(nets: seq<Net>): seq<Net> {
    if nets == [] then [] else Inserted(AddedAll(nets[..|nets| - 1]), nets[|nets| - 1])
  }

  /** The last of the matching entries with the longest mask. */
  function LastMatch(nets: seq<Net>, ips: Address): (r: Option<Net>)
    ensures r.Some? ==> Matches(ips, r.value)
  {
    if nets == [] then None
    else
      var behind := LastMatch(nets[1..], ips);
      if Matches(ips, nets[0]) && (behind == None || behind.value.ipMask < nets[0].ipMask) then Some(nets[0])
      else behind
  }

  function LastAnswer(nets: seq<Net>, ips: Address): int {
    match LastMatch(nets, ips)
    case None => AUTH_PLAYER_NET_OPEN
    case Some(net) => net.authType
  }

  lemma {:induction false} LastMatchSnoc(nets: seq<Net>, net: Net, ips: Address)
    requires Descending(nets + [net])
    ensures LastMatch(nets + [net], ips) ==
      if Matches(ips, net) && (LastMatch(nets, ips) == None || LastMatch(nets, ips).value.ipMask <= net.ipMask)
      then Some(net) else LastMatch(nets, ips)
    decreases |nets|
  {
    if nets == [] {
      assert [] + [net] == [net];
    } else {
      assert (nets + [net])[1..] == nets[1..] + [net];
      LastMatchSnoc(nets[1..], net, ips);
      HeadIsLongest(nets + [net], |nets|);
    }
  }

  lemma {:induction false} DescendingFront(nets: seq<Net>)
    requires Descending(nets) && nets != []
    ensures Descending(nets[..|nets| - 1])
    decreases |nets|
  {
    if |nets| > 1 {
      DescendingFront(nets[1..]);
      assert nets[..|nets| - 1][1..] == nets[1..][..|nets| - 2];
    }
  }

  /** Loading turns the order of equal masks round: the last of them answers. */
  lemma {:induction false} AddedAllAnswer(nets: seq<Net>, ips: Address)
    requires Descending(nets)
    ensures Descending(AddedAll(nets))
    ensures FirstMatch(AddedAll(nets), ips) == LastMatch(nets, ips)
    decreases |nets|
  {
    if nets != [] {
      var front, net := nets[..|nets| - 1], nets[|nets| - 1];
      assert front + [net] == nets;
      DescendingFront(nets);
      AddedAllAnswer(front, ips);
      InsertedDescending(AddedAll(front), net);
      InsertedMatch(AddedAll(front), net, ips);
      LastMatchSnoc(front, net, ips);
    }
  }

  predicate NoneTemporary(nets: seq<Net>, ips: Address) {
    nets == [] || (!(nets[0].tmp && Matches(ips, nets[0])) && NoneTemporary(nets[1..], ips))
  }

  lemma {:induction false} PermanentMatch(nets: seq<Net>, ips: Address)
    requires NoneTemporary(nets, ips)
    ensures FirstMatch(Permanent(nets), ips) == FirstMatch(nets, ips)
    decreases |nets|
  {
    if nets != [] {
      PermanentMatch(nets[1..], ips);
      assert nets[0].tmp ==> Permanent(nets) == Permanent(nets[1..]);
      assert !nets[0].tmp ==> Permanent(nets)[1..] == Permanent(nets[1..]);
    }
  }

  lemma {:induction false} PermanentDescending(nets: seq<Net>)
    requires Descending(nets)
    ensures Descending(Permanent(nets))
    ensures nets != [] && Permanent(nets) != [] ==> Permanent(nets)[0].ipMask <= nets[0].ipMask
    decreases |nets|
  {
    if nets != [] {
      PermanentDescending(nets[1..]);
      if nets[0].tmp {
        assert Permanent(nets) == Permanent(nets[1..]);
      } else {
        assert Permanent(nets)[1..] == Permanent(nets[1..]);
      }
    }
  }

  /** The first and the last match have the same mask. */
  lemma {:induction false} FirstAndLast(nets: seq<Net>, ips: Address)
    requires Descending(nets)
    ensures FirstMatch(nets, ips).Some? <==> LastMatch(nets, ips).Some?
    ensures FirstMatch(nets, ips).Some? ==>
      FirstMatch(nets, ips).value.ipMask == LastMatch(nets, ips).value.ipMask
    decreases |nets|
  {
    if nets != [] {
      FirstAndLast(nets[1..], ips);
      if FirstMatch(nets[1..], ips).Some? {
        var i := FirstMatchIsThere(nets[1..], ips);
        HeadIsLongest(nets, i + 1);
      }
    }
  }

  /** After saving and loading, an address that no temporary entry matches gets the same answer
      exactly if the first and the last entry of its longest network agree. */
  lemma Reloaded(nets: seq<Net>, ips: Address)
    requires Descending(nets) && NoneTemporary(nets, ips)
    ensures var kept := Permanent(nets);
      Answer(AddedAll(kept), ips) == Answer(nets, ips) <==> Answer(kept, ips) == LastAnswer(kept, ips)
  {
    PermanentMatch(nets, ips);
    PermanentDescending(nets);
    AddedAllAnswer(Permanent(nets), ips);
    FirstAndLast(Permanent(nets), ips);
  }

  predicate AllMasked(nets: seq<Net>) {
    forall i :: 0 <= i < |nets| ==> Masked(nets[i].ips, nets[i].ipMask) == nets[i].ips
  }

  predicate SameNetwork(a: Net, b: Net) {
    a.ips == b.ips && a.ipMask == b.ipMask
  }

  lemma {:induction false} LastMatchIsThere(nets: seq<Net>, ips: Address) returns (i: nat)
    requires LastMatch(nets, ips).Some?
    ensures i < |nets| && nets[i] == LastMatch(nets, ips).value
  {
    if LastMatch(nets[1..], ips) == LastMatch(nets, ips) {
      i := LastMatchIsThere(nets[1..], ips);
      i := i + 1;
    } else {
      i := 0;
    }
  }

  lemma {:induction false} PermanentMasked(nets: seq<Net>)
    requires AllMasked(nets)
    ensures AllMasked(Permanent(nets))
    decreases |nets|
  {
    if nets != [] {
      PermanentMasked(nets[1..]);
      var p := Permanent(nets);
      forall i | 0 <= i < |p|
        ensures Masked(p[i].ips, p[i].ipMask) == p[i].ips
      {
        if nets[0].tmp {
          assert p == Permanent(nets[1..]);
        } else if i > 0 {
          assert p[i] == Permanent(nets[1..])[i - 1];
        }
      }
    }
  }

  /** With one permanent entry a network, saving and loading changes no answer. */
  lemma ReloadedSame(nets: seq<Net>, ips: Address)
    requires Descending(nets) && AllMasked(nets) && NoneTemporary(nets, ips)
    requires var kept := Permanent(nets);
      forall i, j :: 0 <= i < j < |kept| ==> !SameNetwork(kept[i], kept[j])
    ensures Answer(AddedAll(Permanent(nets)), ips) == Answer(nets, ips)
  {
    var kept := Permanent(nets);
    Reloaded(nets, ips);
    PermanentDescending(nets);
    PermanentMasked(nets);
    FirstAndLast(kept, ips);
    if FirstMatch(kept, ips).Some? {
      var i := FirstMatchIsThere(kept, ips);
      var j := LastMatchIsThere(kept, ips);
      assert SameNetwork(kept[i], kept[j]);
    }
  }

  // ---------------------------------------------------------------- the list itself

  /** `start_net` and what hangs from it. */
  class Nets {
    var start: Node?<Net>

    // the nodes from the start on, what they hold, and the objects in use
    ghost var nodes: seq<Node<Net>>
    ghost var nets: seq<Net>
    ghost var repr: set<Node<Net>>

    constructor ()
      ensures Valid() && nets == [] && repr == {}
    {
      start, nodes, nets, repr := null, [], [], {};
    }

    /** `next` and `prev` mirror each other along the list. */
    ghost predicate Linked()
      reads this`start, this`nodes, nodes`next, nodes`prev
    {
      start == At(nodes, 0) && Forward(nodes) && Backward(nodes)
    }

    ghost predicate Listed()
      reads this`start, this`nodes, this`nets, nodes
    {
      Holds(nodes, nets) && Linked()
    }

    ghost predicate Valid()
      reads this, repr
    {
      Within(nodes, repr) && Listed() && Descending(nets) && AllMasked(nets)
    }

    /** The new node stands at position p, between nodes already linked to it. */
    ghost predicate Between(add: Node<Net>, p: nat)
      reads this`start, this`nodes, add`next, add`prev, nodes`next, nodes`prev
    {
      && add.next == At(nodes, p) && add.prev == At(nodes, p - 1)
      && ForwardTo(nodes, p, add) && BackwardTo(nodes, p, add)
      && start == if p == 0 then add else At(nodes, 0)
    }

    ghost method Placed(add: Node<Net>, p: nat)
      requires Holds(nodes, nets) && Within(nodes, repr) && p <= |nodes| && Between(add, p)
      modifies this`nodes, this`nets, this`repr
      ensures Listed() && Within(nodes, repr) && repr == old(repr) + {add}
      ensures nodes == With(old(nodes), p, add) && nets == With(old(nets), p, add.value)
    {
      var ns := With(nodes, p, add);
      ForwardWith(nodes, p, add, ns);
      BackwardWith(nodes, p, add, ns);
      HoldsWith(nodes, nets, p, add);
      WithinWith(nodes, p, add, repr);
      nodes, nets, repr := ns, With(nets, p, add.value), repr + {add};
    }

    method LinkFirst(add: Node<Net>)
      requires Listed() && nodes == []
      modifies this`start, add`next, add`prev
      ensures Between(add, 0)
    {
      add.next := null;
      add.prev := null;
      start := add;
    }

    method LinkBehind(add: Node<Net>, scan: Node<Net>, ghost k: nat)
      requires Listed() && Outside(nodes, add) && k < |nodes| && scan == nodes[k]
      modifies add`next, add`prev, nodes`next, nodes`prev
      ensures Between(add, k + 1)
    {
      DistinctAt(nodes, k);
      if k + 1 < |nodes| {
        DistinctAt(nodes, k + 1);
      }
      add.next := scan.next;
      if add.next != null {
        add.next.prev := add;
      }
      add.prev := scan;
      scan.next := add;
    }

    method LinkBefore(add: Node<Net>, scan: Node<Net>, ghost k: nat)
      requires Listed() && Outside(nodes, add) && k < |nodes| && scan == nodes[k]
      modifies this`start, add`next, add`prev, nodes`next, nodes`prev
      ensures Between(add, k)
    {
      DistinctAt(nodes, k);
      if k > 0 {
        DistinctAt(nodes, k - 1);
      }
      add.prev := scan.prev;
      if add.prev != null {
        add.prev.next := add;
      } else {
        start := add;
      }
      add.next := scan;
      scan.prev := add;
    }

    /** The loop of `auth_player_net_add`, which does not leave the list at its last node. */
    method Place(ipMask: Mask) returns (scan: Node<Net>, ghost k: nat)
      requires Listed() && start != null
      ensures k < |nodes| && scan == nodes[k] && forall i :: 0 <= i < k ==> ipMask < nets[i].ipMask
      ensures k + 1 == |nodes| || ipMask >= nets[k].ipMask
    {
      scan, k := start, 0;
      while scan.next != null && ipMask < scan.value.ipMask
        invariant k < |nodes| && scan == nodes[k]
        invariant forall i :: 0 <= i < k ==> ipMask < nets[i].ipMask
        decreases |nodes| - k
      {
        scan, k := scan.next, k + 1;
      }
    }

    method Link(add: Node<Net>) returns (ghost at: nat)
      requires Listed() && Outside(nodes, add)
      modifies this`start, add`next, add`prev, nodes`next, nodes`prev
      ensures PlaceOf(nets, add.value.ipMask, at) && at <= |nodes| && Between(add, at)
    {
      at := 0;
      if start == null {
        LinkFirst(add);
        return;
      }
      var scan, k := Place(add.value.ipMask);
      if add.value.ipMask < scan.value.ipMask {
        at := k + 1;
        LinkBehind(add, scan, k);
      } else {
        at := k;
        LinkBefore(add, scan, k);
      }
    }

    /** `auth_player_net_add` */
    method Add(ips: Address, ipMask: Mask, authType: int) returns (add: Node<Net>, ghost at: nat)
      requires Valid()
      modifies this, repr`next, repr`prev
      ensures Valid() && fresh(repr - old(repr)) && fresh(add)
      ensures PlaceOf(old(nets), ipMask, at) && at < |nodes| && nodes[at] == add
      ensures nets == Inserted(old(nets), Net(Masked(ips, ipMask), ipMask, authType, false))
    {
      add := new Node(Net(Masked(ips, ipMask), ipMask, authType, false));
      at := Link(add);
      MaskedNested(ips, ipMask, ipMask);
      InsertedDescending(nets, add.value);
      InsertedAt(nets, add.value, at);
      Placed(add, at);
    }

    /** The flag of a temporary entry is set once it stands in the list. */
    method AddTemporary(ips: Address, ipMask: Mask, authType: int)
      requires Valid()
      modifies this, repr`next, repr`prev
      ensures Valid() && fresh(repr - old(repr))
      ensures nets == Inserted(old(nets), Net(Masked(ips, ipMask), ipMask, authType, true))
    {
      ghost var before := nets;
      var add, at := Add(ips, ipMask, authType);
      ghost var permanent := Net(Masked(ips, ipMask), ipMask, authType, false);
      InsertedUpdate(before, permanent, at, permanent.(tmp := true));
      InsertedDescending(before, permanent.(tmp := true));
      SetTemporary(add, at);
    }

    method SetTemporary(add: Node<Net>, ghost at: nat)
      requires Valid() && at < |nodes| && nodes[at] == add
      requires Descending(nets[at := nets[at].(tmp := true)])
      modifies this`nets, add`value
      ensures Valid() && nets == old(nets)[at := old(nets)[at].(tmp := true)]
    {
      DistinctAt(nodes, at);
      add.value := add.value.(tmp := true);
      nets := nets[at := nets[at].(tmp := true)];
    }

    /** `internal_auth_player_net_delete` */
    method DeleteAt(scan: Node<Net>, ghost k: nat)
      requires Valid() && k < |nodes| && scan == nodes[k]
      modifies this`start, this`nodes, this`nets, repr`next, repr`prev
      ensures Valid() && nets == Without(old(nets), k) && nodes == Without(old(nodes), k)
    {
      WithoutDescending(nets, k);
      Unlink(scan, k);
      ForwardWithout(nodes, k, Without(nodes, k));
      BackwardWithout(nodes, k, Without(nodes, k));
      WithinWithout(nodes, k, repr);
      nodes, nets := Without(nodes, k), Without(nets, k);
    }

    method Unlink(scan: Node<Net>, ghost k: nat)
      requires Listed() && k < |nodes| && scan == nodes[k]
      modifies this`start, nodes`next, nodes`prev
      ensures start == if k == 0 then At(nodes, 1) else At(nodes, 0)
      ensures ForwardPast(nodes, k) && BackwardPast(nodes, k)
    {
      if k > 0 {
        DistinctAt(nodes, k - 1);
      }
      if k + 1 < |nodes| {
        DistinctAt(nodes, k + 1);
      }
      if scan.next != null {
        scan.next.prev := scan.prev;
      }
      if scan.prev != null {
        scan.prev.next := scan.next;
      } else {
        start := scan.next;
      }
    }

    /** `auth_player_net_delete`: entries count from 1, and what is below counts as 1. */
    method Delete(order: int) returns (found: bool)
      requires Valid()
      modifies this`start, this`nodes, this`nets, repr`next, repr`prev
      ensures Valid()
      ensures var k := if order <= 1 then 0 else order - 1;
        && (found <==> k < |old(nets)|)
        && nets == if found then Without(old(nets), k) else old(nets)
    {
      var scan, left := start, order - 1;
      ghost var k := 0;
      while scan != null && left > 0
        invariant k <= |nodes| && scan == At(nodes, k) && (order >= 1 ==> left >= 0 && k + left == order - 1)
        invariant order < 1 ==> k == 0 && left < 0
        decreases |nodes| - k
      {
        scan, left, k := scan.next, left - 1, k + 1;
      }
      found := scan != null;
      if found {
        DeleteAt(scan, k);
      }
    }

    /** `auth_player_net_number` */
    method Number() returns (count: nat)
      requires Listed()
      ensures count == |Permanent(nets)|
    {
      count := 0;
      var scan := start;
      ghost var k := 0;
      assert nets[0..] == nets;
      while scan != null
        invariant k <= |nodes| && scan == At(nodes, k)
        invariant count + |Permanent(nets[k..])| == |Permanent(nets)|
        decreases |nodes| - k
      {
        assert nets[k..][1..] == nets[k + 1..];
        if !scan.value.tmp {
          count := count + 1;
        }
        scan, k := scan.next, k + 1;
      }
    }

    /** `auth_player_net_do`: of the entries that match, one with the longest mask answers. */
    method Do(ips: Address) returns (authType: int)
      requires Valid()
      ensures authType == Answer(nets, ips)
      ensures (forall i :: 0 <= i < |nets| ==> !Matches(ips, nets[i])) ==> authType == AUTH_PLAYER_NET_OPEN
      ensures (exists i :: 0 <= i < |nets| && Matches(ips, nets[i])) ==>
        exists i :: 0 <= i < |nets| && Matches(ips, nets[i]) && nets[i].authType == authType
          && forall j :: 0 <= j < |nets| && Matches(ips, nets[j]) ==> nets[j].ipMask <= nets[i].ipMask
    {
      var scan := start;
      ghost var k := 0;
      assert nets[0..] == nets;
      while scan != null
        invariant k <= |nodes| && scan == At(nodes, k) && FirstMatch(nets[k..], ips) == FirstMatch(nets, ips)
        invariant forall i :: 0 <= i < k ==> !Matches(ips, nets[i])
        decreases |nodes| - k
      {
        assert nets[k..][1..] == nets[k + 1..];
        if Matches(ips, scan.value) {
          forall j | 0 <= j < |nets| && Matches(ips, nets[j])
            ensures nets[j].ipMask <= nets[k].ipMask
          {
            LongestMatch(nets, ips, j);
          }
          return scan.value.authType;
        }
        scan, k := scan.next, k + 1;
      }
      return AUTH_PLAYER_NET_OPEN;
    }
  }

  lemma {:induction false} InsertedAt(nets: seq<Net>, net: Net, at: nat)
    requires PlaceOf(nets, net.ipMask, at)
    ensures Inserted(nets, net) == nets[..at] + [net] + nets[at..]
    decreases at
  {
    if at > 0 {
      InsertedAt(nets[1..], net, at - 1);
      assert nets[..at] == [nets[0]] + nets[1..][..at - 1] && nets[1..][at - 1..] == nets[at..];
    }
  }

  lemma InsertedUpdate(nets: seq<Net>, net: Net, at: nat, other: Net)
    requires PlaceOf(nets, net.ipMask, at) && other.ipMask == net.ipMask
    ensures at < |Inserted(nets, net)| && Inserted(nets, net)[at] == net
    ensures Inserted(nets, net)[at := other] == Inserted(nets, other)
  {
    InsertedAt(nets, net, at);
    InsertedAt(nets, other, at);
  }

  /** Two permanent entries of one network that answer differently: the first answers before
      saving and loading, the second afterwards. */
  lemma AnswerChanges(ips: Address, a: int, b: int)
    requires a != b
    ensures var nets := [Net(ips, MASK_MAX, a, false), Net(ips, MASK_MAX, b, false)];
      Descending(nets) && Answer(nets, ips) == a && Answer(AddedAll(Permanent(nets)), ips) == b
  {
    var first, second := Net(ips, MASK_MAX, a, false), Net(ips, MASK_MAX, b, false);
    var nets := [first, second];
    assert nets[1..] == [second] && [second][1..] == [];
    assert Permanent([second]) == [second] && Permanent(nets) == nets;
    assert LastMatch([second], ips) == Some(second);
    AddedAllAnswer(nets, ips);
  }
}

/** Doubly linked nodes, and what putting one between two others, or taking one out, does to the
    links along a list.
 */
module Links {

  class Node<T> {
    var next: Node?<T>
    var prev: Node?<T>
    var value: T

    constructor (value: T)
      ensures this.value == value
    {
      this.value, next, prev := value, null, null;
    }
  }

  /** The list holds no such node. */
  ghost predicate Outside<T>(ns: seq<Node<T>>, node: Node<T>) {
    forall i :: 0 <= i < |ns| ==> ns[i] != node
  }

  ghost function At<T>(ns: seq<Node<T>>, i: int): Node?<T> {
    if 0 <= i < |ns| then ns[i] else null
  }

  ghost predicate Forward<T>(ns: seq<Node<T>>)
    reads ns`next
  {
    forall i {:trigger ns[i].next} :: 0 <= i < |ns| ==> ns[i].next == At(ns, i + 1)
  }

  ghost predicate Backward<T>(ns: seq<Node<T>>)
    reads ns`prev
  {
    forall i {:trigger ns[i].prev} :: 0 <= i < |ns| ==> ns[i].prev == At(ns, i - 1)
  }

  ghost predicate Holds<T>(ns: seq<Node<T>>, es: seq<T>)
    reads ns`value
  {
    |ns| == |es| && forall i :: 0 <= i < |ns| ==> ns[i].value == es[i]
  }

  /** The list links to a node at position p that it does not hold yet. */
  ghost predicate ForwardTo<T>(ns: seq<Node<T>>, p: nat, node: Node<T>)
    reads ns`next
  {
    forall i {:trigger ns[i].next} :: 0 <= i < |ns| ==> ns[i].next == if i == p - 1 then node else At(ns, i + 1)
  }

  ghost predicate BackwardTo<T>(ns: seq<Node<T>>, p: nat, node: Node<T>)
    reads ns`prev
  {
    forall i {:trigger ns[i].prev} :: 0 <= i < |ns| ==> ns[i].prev == if i == p then node else At(ns, i - 1)
  }

  function With<T>(s: seq<T>, p: nat, x: T): (r: seq<T>)
    requires p <= |s|
    ensures |r| == |s| + 1
    ensures forall i {:trigger r[i]} :: 0 <= i < |r| ==> r[i] == if i < p then s[i] else if i == p then x else s[i - 1]
  {
    s[..p] + [x] + s[p..]
  }

  lemma ForwardWith<T>(ns: seq<Node<T>>, p: nat, node: Node<T>, r: seq<Node<T>>)
    requires p <= |ns| && ForwardTo(ns, p, node) && node.next == At(ns, p) && r == With(ns, p, node)
    ensures Forward(r)
  {
  }

  lemma BackwardWith<T>(ns: seq<Node<T>>, p: nat, node: Node<T>, r: seq<Node<T>>)
    requires p <= |ns| && BackwardTo(ns, p, node) && node.prev == At(ns, p - 1) && r == With(ns, p, node)
    ensures Backward(r)
  {
  }

  lemma HoldsWith<T>(ns: seq<Node<T>>, es: seq<T>, p: nat, node: Node<T>)
    requires Holds(ns, es) && p <= |ns|
    ensures Holds(With(ns, p, node), With(es, p, node.value))
  {
  }

  function Without<T>(s: seq<T>, p: nat): (r: seq<T>)
    requires p < |s|
    ensures |r| == |s| - 1
    ensures forall i {:trigger r[i]} :: 0 <= i < |r| ==> r[i] == if i < p then s[i] else s[i + 1]
  {
    s[..p] + s[p + 1..]
  }

  /** The list goes past the node at position k, whose own links are as before. */
  ghost predicate ForwardPast<T>(ns: seq<Node<T>>, k: nat)
    reads ns`next
  {
    forall i {:trigger ns[i].next} :: 0 <= i < |ns| && i != k ==>
      ns[i].next == if i == k - 1 then At(ns, k + 1) else At(ns, i + 1)
  }

  ghost predicate BackwardPast<T>(ns: seq<Node<T>>, k: nat)
    reads ns`prev
  {
    forall i {:trigger ns[i].prev} :: 0 <= i < |ns| && i != k ==>
      ns[i].prev == if i == k + 1 then At(ns, k - 1) else At(ns, i - 1)
  }

  lemma ForwardWithout<T>(ns: seq<Node<T>>, k: nat, r: seq<Node<T>>)
    requires k < |ns| && ForwardPast(ns, k) && r == Without(ns, k)
    ensures Forward(r)
  {
  }

  lemma BackwardWithout<T>(ns: seq<Node<T>>, k: nat, r: seq<Node<T>>)
    requires k < |ns| && BackwardPast(ns, k) && r == Without(ns, k)
    ensures Backward(r)
  {
  }

  ghost predicate Within<T>(ns: seq<Node<T>>, repr: set<Node<T>>) {
    forall i :: 0 <= i < |ns| ==> ns[i] in repr
  }

  lemma WithinWith<T>(ns: seq<Node<T>>, p: nat, node: Node<T>, repr: set<Node<T>>)
    requires Within(ns, repr) && p <= |ns|
    ensures Within(With(ns, p, node), repr + {node})
  {
  }

  lemma WithinWithout<T>(ns: seq<Node<T>>, k: nat, repr: set<Node<T>>)
    requires Within(ns, repr) && k < |ns|
    ensures Within(Without(ns, k), repr)
  {
  }

  /** Nodes linked backwards cannot repeat: their ways to the front would be equally long. */
  lemma {:induction false} NoRepeat<T>(ns: seq<Node<T>>, i: nat, j: nat)
    requires Backward(ns) && i < j < |ns|
    ensures ns[i] != ns[j]
    decreases i
  {
    if ns[i] == ns[j] {
      assert ns[i].prev == At(ns, i - 1) && ns[j].prev == At(ns, j - 1);
      if i > 0 {
        NoRepeat(ns, i - 1, j - 1);
      }
    }
  }

  lemma DistinctAt<T>(ns: seq<Node<T>>, k: nat)
    requires Backward(ns) && k < |ns|
    ensures forall i :: 0 <= i < |ns| && i != k ==> ns[i] != ns[k]
  {
    forall i | 0 <= i < |ns| && i != k
      ensures ns[i] != ns[k]
    {
      NoRepeat(ns, if i < k then i else k, if i < k then k else i);
    }
  }
}

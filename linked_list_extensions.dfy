/** `LinkedListExtensions` of TagsCloudVisualization/CircularCloudLayouter.cs:
    navigation that treats a `LinkedList<PointF>` as a ring.  A list is the
    sequence of its values and a node is its position in that sequence;
    `None` stands for a `null` node. */
module LinkedListExtensions {

  datatype Option<T> = None | Some(value: T)

  /** `node` is `null` or one of the nodes of `list`. */
  predicate IsNodeOf<T>(list: seq<T>, node: Option<nat>)
  {
    node.Some? ==> node.value < |list|
  }

  /** `LinkedList.First`: `null` on an empty list. */
  function First<T>(list: seq<T>): Option<nat>
  {
    if |list| == 0 then None else Some(0)
  }

  /** `LinkedList.Last`: `null` on an empty list. */
  function Last<T>(list: seq<T>): Option<nat>
  {
    if |list| == 0 then None else Some(|list| - 1)
  }

  /** `GetNextNode`: the node after `node`, wrapping from the last node to the
      first; a `null` node also gives the first node. */
  function GetNextNode<T>(list: seq<T>, node: Option<nat>): (r: Option<nat>)
    requires IsNodeOf(list, node)
    ensures IsNodeOf(list, r)
    ensures r.None? <==> |list| == 0
    ensures node.None? ==> r == First(list)
    ensures node == Last(list) ==> r == First(list)
    ensures node.Some? && node != Last(list) ==> r == Some(node.value + 1)
  {
    if node.None? || node.value + 1 == |list| then First(list) else Some(node.value + 1)
  }

  /** `GetPreviousNode`: the node before `node`, wrapping from the first node to
      the last; a `null` node also gives the last node. */
  function GetPreviousNode<T>(list: seq<T>, node: Option<nat>): (r: Option<nat>)
    requires IsNodeOf(list, node)
    ensures IsNodeOf(list, r)
    ensures r.None? <==> |list| == 0
    ensures node.None? ==> r == Last(list)
    ensures node == First(list) ==> r == Last(list)
    ensures node.Some? && node != First(list) ==> r == Some(node.value - 1)
  {
    if node.None? || node.value == 0 then Last(list) else Some(node.value - 1)
  }

  /** Stepping back undoes stepping forward, and the other way round. */
  lemma NextPreviousInverse<T>(list: seq<T>, i: nat)
    requires i < |list|
    ensures GetPreviousNode(list, GetNextNode(list, Some(i))) == Some(i)
    ensures GetNextNode(list, GetPreviousNode(list, Some(i))) == Some(i)
  {
  }

  /** The node reached after `k` calls of `GetNextNode`. */
  function NextN<T>(list: seq<T>, node: Option<nat>, k: nat): (r: Option<nat>)
    requires IsNodeOf(list, node)
    ensures IsNodeOf(list, r)
    decreases k
  {
    if k == 0 then node else NextN(list, GetNextNode(list, node), k - 1)
  }

  /** `a + b` steps are `a` steps and then `b` steps. */
  lemma {:induction false} NextNAdd<T>(list: seq<T>, node: Option<nat>, a: nat, b: nat)
    requires IsNodeOf(list, node)
    ensures NextN(list, node, a + b) == NextN(list, NextN(list, node, a), b)
    decreases a
  {
    if a > 0 {
      NextNAdd(list, GetNextNode(list, node), a - 1, b);
    }
  }

  /** Without reaching the end, `k` steps move `k` positions forward. */
  lemma {:induction false} NextNForward<T>(list: seq<T>, i: nat, k: nat)
    requires i + k < |list|
    ensures NextN(list, Some(i), k) == Some(i + k)
    decreases k
  {
    if k > 0 {
      NextNForward(list, i + 1, k - 1);
    }
  }

  /** Walking the ring: `|list|` steps from any node come back to it. */
  lemma WalkRing<T>(list: seq<T>, i: nat)
    requires i < |list|
    ensures NextN(list, Some(i), |list|) == Some(i)
  {
    var n := |list|;
    NextNForward(list, i, n - 1 - i);
    NextNAdd(list, Some(i), n - 1 - i, 1);
    assert NextN(list, Some(i), n - i) == Some(0);
    NextNAdd(list, Some(i), n - i, i);
    NextNForward(list, 0, i);
  }

  /** Every node of the ring is reached from every other in fewer than `|list|` steps. */
  lemma RingReachesAll<T>(list: seq<T>, i: nat, j: nat)
    requires i < |list| && j < |list|
    ensures exists k: nat :: k < |list| && NextN(list, Some(i), k) == Some(j)
  {
    if i <= j {
      NextNForward(list, i, j - i);
    } else {
      var n := |list|;
      NextNForward(list, i, n - 1 - i);
      NextNAdd(list, Some(i), n - 1 - i, 1);
      NextNAdd(list, Some(i), n - i, j);
      NextNForward(list, 0, j);
      assert NextN(list, Some(i), n - i + j) == Some(j);
    }
  }

  /** The unit tests: on a one-node list the next of the last node and the
      previous of the first are that node; on an empty list a `null` node stays
      `null` both ways. */
  lemma NavigationExamples<T>(single: seq<T>, empty: seq<T>)
    requires |single| == 1 && |empty| == 0
    ensures GetNextNode(single, Last(single)) == First(single)
    ensures GetPreviousNode(single, First(single)) == Last(single)
    ensures GetNextNode(empty, None) == None
    ensures GetPreviousNode(empty, None) == None
  {
  }
}

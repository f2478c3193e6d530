// The doubly linked priority list over storage keys (linked_list.rs), for one list id.

module SortedList {
  import opened Common

  const MAX_TRAVERSAL_DEPTH := 50

  datatype ListNode = ListNode(id: nat, priority: int, value: string, prev: Option<nat>, next: Option<nat>)

  datatype ListError =
    | InvalidListInsertionPoint | ListNodeNotFound | ListTraversalLimitExceeded
    | Aborted  // a missing entry is unwrapped or a counter overflows, and the call aborts

  type Nodes = map<nat, ListNode>

  /** The `i`-th id of a sequence, or none just outside it. */
  function At(order: seq<nat>, i: int): Option<nat>
    requires -1 <= i <= |order|
  {
    if 0 <= i < |order| then Some(order[i]) else None
  }

  ghost predicate Distinct(order: seq<nat>) {
    forall i, j :: 0 <= i < j < |order| ==> order[i] != order[j]
  }

  ghost predicate Members(nodes: Nodes, order: seq<nat>) {
    forall id :: id in nodes <==> id in order
  }

  /** The node at place `i` knows its id and its neighbours. */
  ghost predicate LinkedRight(nodes: Nodes, order: seq<nat>, i: nat)
    requires i < |order| && order[i] in nodes
  {
    var n := nodes[order[i]];
    n.id == order[i] && n.prev == At(order, i - 1) && n.next == At(order, i + 1)
  }

  ghost predicate NonIncreasing(nodes: Nodes, order: seq<nat>)
    requires Members(nodes, order)
  {
    forall i, j :: 0 <= i < j < |order| ==> nodes[order[i]].priority >= nodes[order[j]].priority
  }

  /** The stored nodes are the ids of `order`, each linked to its neighbours, by non-increasing priority. */
  ghost predicate Represents(nodes: Nodes, order: seq<nat>) {
    && Distinct(order)
    && Members(nodes, order)
    && (forall i :: 0 <= i < |order| ==> LinkedRight(nodes, order, i))
    && NonIncreasing(nodes, order)
  }

  /** The hints name two neighbouring places of the list between which `priority` fits. */
  ghost predicate FitsAt(nodes: Nodes, order: seq<nat>, priority: int, prev: Option<nat>, next: Option<nat>, k: nat)
    requires Members(nodes, order)
  {
    && k <= |order| && prev == At(order, k - 1) && next == At(order, k)
    && (k > 0 ==> nodes[order[k - 1]].priority >= priority)
    && (k < |order| ==> nodes[order[k]].priority <= priority)
  }

  function InsertAt(order: seq<nat>, k: nat, id: nat): seq<nat>
    requires k <= |order|
  {
    order[..k] + [id] + order[k..]
  }

  function RemoveAt(order: seq<nat>, k: nat): seq<nat>
    requires k < |order|
  {
    order[..k] + order[k + 1..]
  }

  lemma {:induction false} FirstBelow(nodes: Nodes, order: seq<nat>, priority: int, i: nat) returns (k: nat)
    requires Members(nodes, order) && i <= |order|
    requires i > 0 ==> nodes[order[i - 1]].priority >= priority
    ensures k <= |order| && FitsAt(nodes, order, priority, At(order, k - 1), At(order, k), k)
    decreases |order| - i
  {
    if i == |order| || nodes[order[i]].priority <= priority {
      k := i;
    } else {
      k := FirstBelow(nodes, order, priority, i + 1);
    }
  }

  // --- Pointer surgery refines sequence surgery -------------------------------------------------------

  /** Links a fresh node between two neighbours. */
  function Linked(nodes: Nodes, node: ListNode): (r: Nodes)
    requires node.prev.Some? ==> node.prev.value in nodes
    requires node.next.Some? ==> node.next.value in nodes
  {
    var n1 := if node.prev.Some? then nodes[node.prev.value := nodes[node.prev.value].(next := Some(node.id))]
        else nodes;
    var n2 := if node.next.Some? then n1[node.next.value := n1[node.next.value].(prev := Some(node.id))] else n1;
    n2[node.id := node]
  }

  lemma DistinctAt(order: seq<nat>, i: nat, j: nat)
    requires Distinct(order) && i < |order| && j < |order| && i != j
    ensures order[i] != order[j]
  {
  }

  lemma LinkedAt(nodes: Nodes, order: seq<nat>, node: ListNode, k: nat, j: nat)
    requires Distinct(order) && Members(nodes, order) && node.id !in order
    requires FitsAt(nodes, order, node.priority, node.prev, node.next, k) && j < |order|
    ensures order[j] in Linked(nodes, node)
    ensures Linked(nodes, node)[order[j]] ==
            if j + 1 == k then nodes[order[j]].(next := Some(node.id))
            else if j == k then nodes[order[j]].(prev := Some(node.id))
            else nodes[order[j]]
  {
    hide Distinct;
    if 0 < k && j != k - 1 {
      DistinctAt(order, k - 1, j);
    }
    if k < |order| && j != k {
      DistinctAt(order, k, j);
    }
  }

  lemma InsertPlaces(order: seq<nat>, k: nat, id: nat, i: nat)
    requires k <= |order| && i <= |order|
    ensures InsertAt(order, k, id)[i] == if i < k then order[i] else if i == k then id else order[i - 1]
  {
  }

  lemma InsertMembers(nodes: Nodes, order: seq<nat>, node: ListNode, k: nat)
    requires Members(nodes, order)
    requires FitsAt(nodes, order, node.priority, node.prev, node.next, k)
    ensures Members(Linked(nodes, node), InsertAt(order, k, node.id))
  {
    assert order == order[..k] + order[k..];
    forall id
      ensures id in Linked(nodes, node) <==> id in nodes || id == node.id
      ensures id in InsertAt(order, k, node.id) <==> id in order || id == node.id
    {
    }
  }

  lemma InsertDistinct(order: seq<nat>, k: nat, id: nat)
    requires Distinct(order) && k <= |order| && id !in order
    ensures Distinct(InsertAt(order, k, id))
  {
    hide InsertAt, Distinct;
    var bigger := InsertAt(order, k, id);
    assert |bigger| == |order| + 1 by { InsertLength(order, k, id); }
    forall i, j | 0 <= i < j < |bigger|
      ensures bigger[i] != bigger[j]
    {
      InsertPlaces(order, k, id, i);
      InsertPlaces(order, k, id, j);
      var p, q := if i < k then i else i - 1, if j < k then j else j - 1;
      if i != k && j != k {
        DistinctAt(order, p, q);
      }
    }
    DistinctIntro(bigger);
  }

  lemma InsertLength(order: seq<nat>, k: nat, id: nat)
    requires k <= |order|
    ensures |InsertAt(order, k, id)| == |order| + 1
  {
  }

  lemma DistinctIntro(order: seq<nat>)
    requires forall i, j :: 0 <= i < j < |order| ==> order[i] != order[j]
    ensures Distinct(order)
  {
  }

  lemma InsertLinks(nodes: Nodes, order: seq<nat>, node: ListNode, k: nat, i: nat)
    requires Represents(nodes, order) && node.id !in order && i <= |order|
    requires FitsAt(nodes, order, node.priority, node.prev, node.next, k)
    ensures |InsertAt(order, k, node.id)| == |order| + 1 && InsertAt(order, k, node.id)[i] in Linked(nodes, node)
    ensures LinkedRight(Linked(nodes, node), InsertAt(order, k, node.id), i)
  {
    hide InsertAt, Linked, Distinct, Members, NonIncreasing;
    InsertLength(order, k, node.id);
    InsertPlaces(order, k, node.id, i);
    if i > 0 { InsertPlaces(order, k, node.id, i - 1); }
    if i < |order| { InsertPlaces(order, k, node.id, i + 1); }
    NewNode(nodes, order, node, k);
    if i != k {
      var j := if i < k then i else i - 1;
      LinkedAt(nodes, order, node, k, j);
      NeighboursStored(nodes, order, j);
    }
  }

  lemma NewNode(nodes: Nodes, order: seq<nat>, node: ListNode, k: nat)
    requires Members(nodes, order) && FitsAt(nodes, order, node.priority, node.prev, node.next, k)
    ensures node.id in Linked(nodes, node) && Linked(nodes, node)[node.id] == node
  {
  }

  lemma InsertKeepsOrder(nodes: Nodes, order: seq<nat>, node: ListNode, k: nat, i: nat, j: nat)
    requires Represents(nodes, order) && node.id !in order && i < j <= |order|
    requires FitsAt(nodes, order, node.priority, node.prev, node.next, k)
    ensures var bigger := InsertAt(order, k, node.id);
            |bigger| == |order| + 1 && bigger[i] in Linked(nodes, node) && bigger[j] in Linked(nodes, node)
            && Linked(nodes, node)[bigger[i]].priority >= Linked(nodes, node)[bigger[j]].priority
  {
    hide InsertAt, Linked, Distinct, LinkedRight;
    InsertLength(order, k, node.id);
    InsertPlaces(order, k, node.id, i);
    InsertPlaces(order, k, node.id, j);
    NewNode(nodes, order, node, k);
    if i != k { LinkedAt(nodes, order, node, k, if i < k then i else i - 1); }
    if j != k { LinkedAt(nodes, order, node, k, if j < k then j else j - 1); }
  }

  /** Inserting a fitting node turns the representation of `order` into that of `order` with the id inserted. */
  lemma InsertRefines(nodes: Nodes, order: seq<nat>, node: ListNode, k: nat)
    requires Represents(nodes, order) && node.id !in order
    requires FitsAt(nodes, order, node.priority, node.prev, node.next, k)
    ensures Represents(Linked(nodes, node), InsertAt(order, k, node.id))
  {
    hide InsertAt, Linked, Distinct, LinkedRight;
    InsertLength(order, k, node.id);
    InsertMembers(nodes, order, node, k);
    InsertDistinct(order, k, node.id);
    forall i | 0 <= i <= |order|
      ensures LinkedRight(Linked(nodes, node), InsertAt(order, k, node.id), i)
    {
      InsertLinks(nodes, order, node, k, i);
    }
    forall i, j | 0 <= i < j <= |order|
      ensures Linked(nodes, node)[InsertAt(order, k, node.id)[i]].priority
           >= Linked(nodes, node)[InsertAt(order, k, node.id)[j]].priority
    {
      InsertKeepsOrder(nodes, order, node, k, i, j);
    }
  }

  /** Unlinks a node from its neighbours and drops it. */
  function Unlinked(nodes: Nodes, node: ListNode): (r: Nodes)
    requires node.prev.Some? ==> node.prev.value in nodes
    requires node.next.Some? ==> node.next.value in nodes
  {
    var n1 := if node.prev.Some? then nodes[node.prev.value := nodes[node.prev.value].(next := node.next)] else nodes;
    var n2 := if node.next.Some? then n1[node.next.value := n1[node.next.value].(prev := node.prev)] else n1;
    n2 - {node.id}
  }

  lemma RemovePlaces(order: seq<nat>, k: nat, i: nat)
    requires k < |order| && i < |order| - 1
    ensures |RemoveAt(order, k)| == |order| - 1
    ensures RemoveAt(order, k)[i] == order[if i < k then i else i + 1]
  {
  }

  lemma NeighboursStored(nodes: Nodes, order: seq<nat>, k: nat)
    requires Represents(nodes, order) && k < |order|
    ensures var n := nodes[order[k]];
            (n.prev.Some? ==> n.prev.value in nodes) && (n.next.Some? ==> n.next.value in nodes)
            && n.id == order[k] && n.prev == At(order, k - 1) && n.next == At(order, k + 1)
  {
    assert LinkedRight(nodes, order, k);
  }

  lemma UnlinkedAt(nodes: Nodes, order: seq<nat>, k: nat, j: nat)
    requires Represents(nodes, order) && k < |order| && j < |order| && j != k
    ensures var n := nodes[order[k]];
            (n.prev.Some? ==> n.prev.value in nodes) && (n.next.Some? ==> n.next.value in nodes)
            && order[j] in Unlinked(nodes, n)
            && Unlinked(nodes, n)[order[j]] ==
               if j + 1 == k then nodes[order[j]].(next := n.next)
               else if j == k + 1 then nodes[order[j]].(prev := n.prev)
               else nodes[order[j]]
  {
    NeighboursStored(nodes, order, k);
    hide Represents, LinkedRight, NonIncreasing;
    DistinctAt(order, k, j);
    if 0 < k && j != k - 1 {
      DistinctAt(order, k - 1, j);
    }
    if k + 1 < |order| && j != k + 1 {
      DistinctAt(order, k + 1, j);
    }
  }

  lemma RemoveMembers(nodes: Nodes, order: seq<nat>, k: nat)
    requires Represents(nodes, order) && k < |order|
    ensures var n := nodes[order[k]];
            (n.prev.Some? ==> n.prev.value in nodes) && (n.next.Some? ==> n.next.value in nodes)
            && Members(Unlinked(nodes, n), RemoveAt(order, k))
  {
    NeighboursStored(nodes, order, k);
    hide LinkedRight, NonIncreasing, RemoveAt, Unlinked;
    forall id
      ensures id in Unlinked(nodes, nodes[order[k]]) <==> id in nodes && id != order[k]
      ensures id in RemoveAt(order, k) <==> id in order && id != order[k]
    {
      UnlinkedKeys(nodes, nodes[order[k]], id);
      RemoveKeys(order, k, id);
    }
  }

  lemma UnlinkedKeys(nodes: Nodes, node: ListNode, id: nat)
    requires node.prev.Some? ==> node.prev.value in nodes
    requires node.next.Some? ==> node.next.value in nodes
    ensures id in Unlinked(nodes, node) <==> id in nodes && id != node.id
  {
  }

  lemma RemoveKeys(order: seq<nat>, k: nat, id: nat)
    requires Distinct(order) && k < |order|
    ensures id in RemoveAt(order, k) <==> id in order && id != order[k]
  {
    assert order == order[..k] + [order[k]] + order[k + 1..];
  }

  lemma RemoveDistinct(order: seq<nat>, k: nat)
    requires Distinct(order) && k < |order|
    ensures Distinct(RemoveAt(order, k))
  {
  }

  lemma RemoveLinks(nodes: Nodes, order: seq<nat>, k: nat, i: nat)
    requires Represents(nodes, order) && k < |order| && i < |order| - 1
    ensures var n := nodes[order[k]];
            (n.prev.Some? ==> n.prev.value in nodes) && (n.next.Some? ==> n.next.value in nodes)
            && |RemoveAt(order, k)| == |order| - 1 && RemoveAt(order, k)[i] in Unlinked(nodes, n)
            && LinkedRight(Unlinked(nodes, n), RemoveAt(order, k), i)
  {
    hide Unlinked, RemoveAt, Distinct, NonIncreasing;
    NeighboursStored(nodes, order, k);
    var j := if i < k then i else i + 1;
    NeighboursStored(nodes, order, j);
    UnlinkedAt(nodes, order, k, j);
    hide Represents, Members;
    RemovePlaces(order, k, i);
    if i > 0 { RemovePlaces(order, k, i - 1); }
    if i + 1 < |order| - 1 { RemovePlaces(order, k, i + 1); }
  }

  lemma RemoveKeepsOrder(nodes: Nodes, order: seq<nat>, k: nat, i: nat, j: nat)
    requires Represents(nodes, order) && k < |order| && i < j < |order| - 1
    ensures var n, smaller := nodes[order[k]], RemoveAt(order, k);
            (n.prev.Some? ==> n.prev.value in nodes) && (n.next.Some? ==> n.next.value in nodes)
            && |smaller| == |order| - 1 && smaller[i] in Unlinked(nodes, n) && smaller[j] in Unlinked(nodes, n)
            && Unlinked(nodes, n)[smaller[i]].priority >= Unlinked(nodes, n)[smaller[j]].priority
  {
    var p, q := if i < k then i else i + 1, if j < k then j else j + 1;
    UnlinkedAt(nodes, order, k, p);
    UnlinkedAt(nodes, order, k, q);
    assert nodes[order[p]].priority >= nodes[order[q]].priority;
    hide Represents, Unlinked, RemoveAt;
    RemovePlaces(order, k, i);
    RemovePlaces(order, k, j);
  }

  /** Unlinking a node turns the representation of `order` into that of `order` with the place deleted. */
  lemma RemoveRefines(nodes: Nodes, order: seq<nat>, k: nat)
    requires Represents(nodes, order) && k < |order|
    ensures var n := nodes[order[k]];
            (n.prev.Some? ==> n.prev.value in nodes) && (n.next.Some? ==> n.next.value in nodes)
            && Represents(Unlinked(nodes, n), RemoveAt(order, k))
  {
    RemoveMembers(nodes, order, k);
    RemoveDistinct(order, k);
    hide Unlinked, Distinct, LinkedRight, RemoveAt;
    var after, smaller := Unlinked(nodes, nodes[order[k]]), RemoveAt(order, k);
    RemoveLength(order, k);
    forall i | 0 <= i < |smaller|
      ensures LinkedRight(after, smaller, i)
    {
      RemoveLinks(nodes, order, k, i);
    }
    forall i, j | 0 <= i < j < |smaller|
      ensures after[smaller[i]].priority >= after[smaller[j]].priority
    {
      RemoveKeepsOrder(nodes, order, k, i, j);
    }
  }

  lemma RemoveLength(order: seq<nat>, k: nat)
    requires k < |order|
    ensures |RemoveAt(order, k)| == |order| - 1
  {
  }

  // --- The stored list ----------------------------------------------------------------------------

  datatype ListMetadata = ListMetadata(head: Option<nat>, tail: Option<nat>, size: nat)

  /** The two checks of `insert`, in the order the code makes them; `None` when both pass. */
  function HintError(nodes: Nodes, meta: ListMetadata, priority: int, prev: Option<nat>,
                     next: Option<nat>): Option<ListError> {
    if prev.Some? && prev.value !in nodes then Some(ListNodeNotFound)
    else if prev.Some? && (nodes[prev.value].priority < priority || nodes[prev.value].next != next)
      then Some(InvalidListInsertionPoint)
    else if prev.None? && meta.head != next then Some(InvalidListInsertionPoint)
    else if next.Some? && next.value !in nodes then Some(ListNodeNotFound)
    else if next.Some? && (nodes[next.value].priority > priority || nodes[next.value].prev != prev)
      then Some(InvalidListInsertionPoint)
    else if next.None? && meta.tail != prev then Some(InvalidListInsertionPoint)
    else None
  }

  ghost predicate Consistent(nodes: Nodes, meta: ListMetadata, order: seq<nat>) {
    Represents(nodes, order)
    && meta == ListMetadata(At(order, 0), At(order, |order| - 1), |order|)
  }

  ghost function IndexOf(order: seq<nat>, id: nat): (i: nat)
    requires id in order
    ensures i < |order| && order[i] == id
  {
    if order[0] == id then 0 else 1 + IndexOf(order[1..], id)
  }

  /** The place an insertion with this `prev` hint goes to. */
  ghost function PlaceAfter(order: seq<nat>, prev: Option<nat>): (k: nat)
    requires prev.Some? ==> prev.value in order
    ensures k <= |order| && prev == At(order, k - 1)
  {
    if prev.None? then 0 else IndexOf(order, prev.value) + 1
  }

  /** The checks pass exactly for the hints of a place where the priority fits. */
  lemma HintsExact(nodes: Nodes, meta: ListMetadata, order: seq<nat>, priority: int, prev: Option<nat>,
                   next: Option<nat>)
    requires Consistent(nodes, meta, order)
    ensures prev.Some? && prev.value !in order ==> HintError(nodes, meta, priority, prev, next).Some?
    ensures (prev.Some? ==> prev.value in order) ==>
      (HintError(nodes, meta, priority, prev, next) == None <==>
       FitsAt(nodes, order, priority, prev, next, PlaceAfter(order, prev)))
  {
    hide Distinct, NonIncreasing;
    assert prev.Some? ==> (prev.value in nodes <==> prev.value in order);
    if prev.None? || prev.value in order {
      var k := PlaceAfter(order, prev);
      if k > 0 { NeighboursStored(nodes, order, k - 1); }
      if k < |order| { NeighboursStored(nodes, order, k); }
      HintsAtPlace(nodes, meta, order, priority, prev, next, k);
    }
  }

  lemma HintsAtPlace(nodes: Nodes, meta: ListMetadata, order: seq<nat>, priority: int, prev: Option<nat>,
                     next: Option<nat>, k: nat)
    requires Consistent(nodes, meta, order) && k <= |order| && prev == At(order, k - 1)
    ensures HintError(nodes, meta, priority, prev, next) == None <==> FitsAt(nodes, order, priority, prev, next, k)
  {
    if k > 0 { NeighboursStored(nodes, order, k - 1); }
    if k < |order| { NeighboursStored(nodes, order, k); }
    hide Represents, Distinct, NonIncreasing, LinkedRight;
  }

  /**
    * Hints that do not pass are reported as a missing node when the first names none, and as a wrong place otherwise.
    */
  lemma HintErrors(nodes: Nodes, meta: ListMetadata, order: seq<nat>, priority: int, prev: Option<nat>,
                   next: Option<nat>)
    requires Consistent(nodes, meta, order) && HintError(nodes, meta, priority, prev, next).Some?
    ensures HintError(nodes, meta, priority, prev, next).value
         == if prev.Some? && prev.value !in order then ListNodeNotFound else InvalidListInsertionPoint
  {
    hide Distinct, NonIncreasing;
    assert prev.Some? ==> (prev.value in nodes <==> prev.value in order);
    if prev.None? || prev.value in order {
      var k := PlaceAfter(order, prev);
      if k > 0 { NeighboursStored(nodes, order, k - 1); }
      if k < |order| { NeighboursStored(nodes, order, k); }
      if next.Some? && (if prev.Some? then nodes[prev.value].next == next else meta.head == next) {
        NextHintStored(nodes, meta, order, prev, next, k);
      }
    }
  }

  /** A second hint that agrees with the first one names a node of the list. */
  lemma NextHintStored(nodes: Nodes, meta: ListMetadata, order: seq<nat>, prev: Option<nat>, next: Option<nat>, k: nat)
    requires Consistent(nodes, meta, order) && k <= |order| && prev == At(order, k - 1) && next.Some?
    requires if prev.Some? then prev.value in nodes && nodes[prev.value].next == next else meta.head == next
    ensures next.value in nodes
  {
    if k > 0 {
      assert LinkedRight(nodes, order, k - 1);
    }
    hide Distinct, NonIncreasing;
  }

  /** For every priority some pair of hints passes the checks. */
  lemma SomeHintsAccepted(nodes: Nodes, meta: ListMetadata, order: seq<nat>, priority: int)
      returns (prev: Option<nat>, next: Option<nat>)
    requires Consistent(nodes, meta, order)
    ensures HintError(nodes, meta, priority, prev, next) == None
  {
    var k: int := FirstBelow(nodes, order, priority, 0);
    prev, next := At(order, k - 1), At(order, k);
    HintsAtPlace(nodes, meta, order, priority, prev, next, k);
  }

  lemma MetadataAfterInsert(order: seq<nat>, k: nat, id: nat)
    requires k <= |order|
    ensures var bigger := InsertAt(order, k, id);
            && At(bigger, 0) == (if k == 0 then Some(id) else At(order, 0))
            && At(bigger, |bigger| - 1) == (if k == |order| then Some(id) else At(order, |order| - 1))
  {
  }

  lemma MetadataAfterRemove(order: seq<nat>, k: nat)
    requires k < |order|
    ensures var smaller := RemoveAt(order, k);
            && At(smaller, 0) == (if k == 0 then At(order, 1) else At(order, 0))
            && At(smaller, |smaller| - 1)
                == (if k == |order| - 1 then At(order, |order| - 2) else At(order, |order| - 1))
  {
  }

  function MetaLinked(meta: ListMetadata, node: ListNode): ListMetadata {
    ListMetadata(if node.prev.None? then Some(node.id) else meta.head,
                 if node.next.None? then Some(node.id) else meta.tail, meta.size + 1)
  }

  function MetaUnlinked(meta: ListMetadata, node: ListNode): ListMetadata
    requires meta.size > 0
  {
    ListMetadata(if node.prev.None? then node.next else meta.head,
                 if node.next.None? then node.prev else meta.tail, meta.size - 1)
  }

  /** Ids in use lie below the counter, so the next id is fresh. */
  ghost predicate IdsBelow(order: seq<nat>, nextId: nat) {
    forall id :: id in order ==> id < nextId
  }

  lemma InsertKeepsState(nodes: Nodes, meta: ListMetadata, order: seq<nat>, node: ListNode, k: nat)
    requires Consistent(nodes, meta, order) && IdsBelow(order, node.id)
    requires FitsAt(nodes, order, node.priority, node.prev, node.next, k)
    ensures Consistent(Linked(nodes, node), MetaLinked(meta, node), InsertAt(order, k, node.id))
    ensures IdsBelow(InsertAt(order, k, node.id), node.id + 1)
    ensures |InsertAt(order, k, node.id)| == |order| + 1
  {
    InsertRefines(nodes, order, node, k);
    MetadataAfterInsert(order, k, node.id);
    InsertLength(order, k, node.id);
    forall id | id in InsertAt(order, k, node.id)
      ensures id < node.id + 1
    {
      InsertedIds(order, k, node.id, id);
    }
    hide Represents, InsertAt, Linked;
  }

  lemma RemoveKeepsState(nodes: Nodes, meta: ListMetadata, order: seq<nat>, k: nat, nextId: nat)
    requires Consistent(nodes, meta, order) && IdsBelow(order, nextId) && k < |order|
    ensures var n := nodes[order[k]];
            && n.id == order[k] && meta.size > 0
            && (n.prev.Some? ==> n.prev.value in nodes) && (n.next.Some? ==> n.next.value in nodes)
            && Consistent(Unlinked(nodes, n), MetaUnlinked(meta, n), RemoveAt(order, k))
    ensures IdsBelow(RemoveAt(order, k), nextId) && |RemoveAt(order, k)| == |order| - 1
  {
    hide Represents, RemoveAt, Unlinked, IdsBelow;
    NeighboursStored(nodes, order, k);
    RemoveRefines(nodes, order, k);
    MetadataAfterRemove(order, k);
    RemoveLength(order, k);
    RemainingBelow(order, k, nextId);
  }

  lemma RemainingBelow(order: seq<nat>, k: nat, nextId: nat)
    requires IdsBelow(order, nextId) && k < |order|
    ensures IdsBelow(RemoveAt(order, k), nextId)
  {
    forall id | id in RemoveAt(order, k)
      ensures id < nextId
    {
      RemainingIds(order, k, id);
    }
  }

  lemma InsertedIds(order: seq<nat>, k: nat, id: nat, x: nat)
    requires k <= |order| && x in InsertAt(order, k, id)
    ensures x == id || x in order
  {
  }

  lemma RemainingIds(order: seq<nat>, k: nat, x: nat)
    requires k < |order| && x in RemoveAt(order, k)
    ensures x in order
  {
  }

  /** What a node carries for its owner, apart from the pointers. */
  ghost predicate SamePayload(a: ListNode, b: ListNode) {
    a.id == b.id && a.value == b.value && a.priority == b.priority
  }

  ghost predicate PayloadsKept(before: Nodes, after: Nodes, ids: set<nat>) {
    forall id :: id in ids && id in before ==> id in after && SamePayload(before[id], after[id])
  }

  lemma LinkedPayload(nodes: Nodes, node: ListNode)
    requires node.prev.Some? ==> node.prev.value in nodes
    requires node.next.Some? ==> node.next.value in nodes
    requires node.id !in nodes
    ensures PayloadsKept(nodes, Linked(nodes, node), nodes.Keys)
    ensures node.id in Linked(nodes, node) && Linked(nodes, node)[node.id] == node
  {
  }

  lemma UnlinkedPayload(nodes: Nodes, node: ListNode)
    requires node.prev.Some? ==> node.prev.value in nodes
    requires node.next.Some? ==> node.next.value in nodes
    ensures PayloadsKept(nodes, Unlinked(nodes, node), nodes.Keys - {node.id})
  {
  }

  class PriorityList {
    var nodes: Nodes
    var meta: ListMetadata
    var nextId: nat
    /** The ids in list order. */
    ghost var order: seq<nat>

    ghost predicate Valid()
      reads this
    {
      Consistent(nodes, meta, order) && IdsBelow(order, nextId) && 1 <= nextId <= U64_MAX && |order| <= U32_MAX
    }

    constructor ()
      ensures Valid() && order == []
    {
      nodes, meta, nextId, order := map[], ListMetadata(None, None, 0), 1, [];
    }

    method GetNode(id: nat) returns (r: Option<ListNode>)
      ensures r == if id in nodes then Some(nodes[id]) else None
    {
      r := if id in nodes then Some(nodes[id]) else None;
    }

    /** The verification of the insertion point: refused exactly when the hints do not name a fitting place. */
    method CheckHints(priority: int, prevId: Option<nat>, nextHint: Option<nat>) returns (r: Option<ListError>)
      requires Valid()
      ensures r == HintError(nodes, meta, priority, prevId, nextHint)
      ensures prevId.Some? && prevId.value !in order ==> r.Some?
      ensures (prevId.Some? ==> prevId.value in order) ==>
        (r == None <==> FitsAt(nodes, order, priority, prevId, nextHint, PlaceAfter(order, prevId)))
    {
      HintsExact(nodes, meta, order, priority, prevId, nextHint);
      hide Consistent, FitsAt, IdsBelow;
      if prevId.Some? {
        var prevNode := GetNode(prevId.value);
        if prevNode.None? {
          return Some(ListNodeNotFound);
        }
        if prevNode.value.priority < priority || prevNode.value.next != nextHint {
          return Some(InvalidListInsertionPoint);
        }
      } else if meta.head != nextHint {
        return Some(InvalidListInsertionPoint);
      }
      if nextHint.Some? {
        var nextNode := GetNode(nextHint.value);
        if nextNode.None? {
          return Some(ListNodeNotFound);
        }
        if nextNode.value.priority > priority || nextNode.value.prev != prevId {
          return Some(InvalidListInsertionPoint);
        }
      } else if meta.tail != prevId {
        return Some(InvalidListInsertionPoint);
      }
      return None;
    }

    /** An accepted insertion puts a fresh id at a place where its priority fits; a refused one changes nothing. */
    method Insert(value: string, priority: int, prevId: Option<nat>, nextHint: Option<nat>)
        returns (r: Result<nat, ListError>)
      requires Valid()
      modifies this
      ensures Valid()
      ensures match old(HintError(nodes, meta, priority, prevId, nextHint))
              case Some(e) => r == Err(e)
              case None =>
                if old(nextId) == U64_MAX || |old(order)| == U32_MAX then r == Err(Aborted) else r == Ok(old(nextId))
      ensures r.Err? ==> unchanged(this)
      ensures r.Ok? ==> prevId.Some? ==> prevId.value in old(order)
      ensures r.Ok? ==> order == InsertAt(old(order), PlaceAfter(old(order), prevId), r.value)
      ensures r.Ok? ==> r.value in nodes && SamePayload(nodes[r.value], ListNode(r.value, priority, value, None, None))
      ensures r.Ok? ==> PayloadsKept(old(nodes), nodes, old(nodes).Keys)
    {
      hide Represents, Distinct, InsertAt, FitsAt, Linked, HintError, PlaceAfter, PayloadsKept, IdsBelow, Consistent;
      var error := CheckHints(priority, prevId, nextHint);
      if error.Some? {
        return Err(error.value);
      }
      ConsistentFacts(nodes, meta, order);
      if nextId == U64_MAX || meta.size == U32_MAX {
        return Err(Aborted);
      }
      var node := ListNode(nextId, priority, value, prevId, nextHint);
      ghost var k := PlaceAfter(order, prevId);
      assert FitsAt(nodes, order, node.priority, node.prev, node.next, k);
      FitsStored(nodes, order, node, k);
      InsertKeepsState(nodes, meta, order, node, k);
      LinkedPayload(nodes, node);
      nextId := nextId + 1;
      Splice(node);
      order := InsertAt(order, k, node.id);
      return Ok(node.id);
    }

    /** Rewrites the neighbours, the ends and the size, and stores the node. */
    method Splice(node: ListNode)
      requires node.prev.Some? ==> node.prev.value in nodes
      requires node.next.Some? ==> node.next.value in nodes
      modifies this`nodes, this`meta
      ensures nodes == Linked(old(nodes), node) && meta == MetaLinked(old(meta), node)
    {
      if node.prev.Some? {
        nodes := nodes[node.prev.value := nodes[node.prev.value].(next := Some(node.id))];
      } else {
        meta := meta.(head := Some(node.id));
      }
      if node.next.Some? {
        nodes := nodes[node.next.value := nodes[node.next.value].(prev := Some(node.id))];
      } else {
        meta := meta.(tail := Some(node.id));
      }
      meta := meta.(size := meta.size + 1);
      nodes := nodes[node.id := node];
    }

    /** Removes exactly one place of the list, or reports a missing node. */
    method Remove(nodeId: nat) returns (r: Result<(), ListError>)
      requires Valid()
      modifies this
      ensures Valid() && nextId == old(nextId)
      ensures r.Ok? <==> nodeId in old(order)
      ensures r.Err? ==> r.error == ListNodeNotFound && unchanged(this)
      ensures r.Ok? ==> order == RemoveAt(old(order), IndexOf(old(order), nodeId))
      ensures r.Ok? ==> PayloadsKept(old(nodes), nodes, old(nodes).Keys - {nodeId})
    {
      if nodeId !in nodes {
        return Err(ListNodeNotFound);
      }
      var node := nodes[nodeId];
      ghost var k := IndexOf(order, nodeId);
      RemoveKeepsState(nodes, meta, order, k, nextId);
      UnlinkedPayload(nodes, node);
      hide Represents, RemoveAt, Unlinked, PayloadsKept, IdsBelow, IndexOf;
      Cut(node);
      order := RemoveAt(order, k);
      return Ok(());
    }

    /** Rewrites the neighbours, the ends and the size, and drops the node. */
    method Cut(node: ListNode)
      requires node.prev.Some? ==> node.prev.value in nodes
      requires node.next.Some? ==> node.next.value in nodes
      requires meta.size > 0
      modifies this`nodes, this`meta
      ensures nodes == Unlinked(old(nodes), node) && meta == MetaUnlinked(old(meta), node)
    {
      if node.prev.Some? {
        nodes := nodes[node.prev.value := nodes[node.prev.value].(next := node.next)];
      } else {
        meta := meta.(head := node.next);
      }
      if node.next.Some? {
        nodes := nodes[node.next.value := nodes[node.next.value].(prev := node.prev)];
      } else {
        meta := meta.(tail := node.prev);
      }
      meta := meta.(size := meta.size - 1);
      nodes := nodes - {node.id};
    }

    /**
      * A page of consecutive places from the given node or the head. The call is refused when fifty nodes
      * were read and the list goes on, even if the caller asked for no more than fifty.
      */
    method GetPage(startId: Option<nat>, limit: nat) returns (r: Result<seq<ListNode>, ListError>)
      requires Valid()
      ensures r == PageFrom(nodes, order, startId, limit)
    {
      hide Represents, PageOf;
      var result: seq<ListNode> := [];
      var current := if startId.Some? then startId else meta.head;
      var count := 0;
      ghost var found := startId.Some? ==> startId.value in order;
      ghost var k: nat := StartPlace(order, startId);
      PageStarts(nodes, meta, order, startId);
      while current.Some?
        invariant count <= limit && count <= MAX_TRAVERSAL_DEPTH
        invariant found ==> k + count <= |order| && current == At(order, k + count)
        invariant found ==> result == PageOf(nodes, order, k, count)
        invariant !found ==> count == 0 && current == startId && result == []
        decreases MAX_TRAVERSAL_DEPTH - count
      {
        if count >= limit || count >= MAX_TRAVERSAL_DEPTH {
          break;
        }
        var node := GetNode(current.value);
        if node.None? {
          return Err(Aborted);
        }
        if found {
          PageGrows(nodes, order, k, count);
        }
        result := result + [node.value];
        current := node.value.next;
        count := count + 1;
      }
      if count >= MAX_TRAVERSAL_DEPTH && current.Some? {
        return Err(ListTraversalLimitExceeded);
      }
      return Ok(result);
    }
  }

  lemma ConsistentFacts(nodes: Nodes, meta: ListMetadata, order: seq<nat>)
    requires Consistent(nodes, meta, order)
    ensures Members(nodes, order) && Represents(nodes, order) && meta.size == |order|
  {
  }

  lemma FitsStored(nodes: Nodes, order: seq<nat>, node: ListNode, k: nat)
    requires Represents(nodes, order) && IdsBelow(order, node.id)
    requires FitsAt(nodes, order, node.priority, node.prev, node.next, k)
    ensures node.prev.Some? ==> node.prev.value in nodes
    ensures node.next.Some? ==> node.next.value in nodes
    ensures node.id !in nodes
  {
  }

  // --- Pages ------------------------------------------------------------------------------------------

  ghost function StartPlace(order: seq<nat>, startId: Option<nat>): nat {
    if startId.Some? && startId.value in order then IndexOf(order, startId.value) else 0
  }

  ghost function PageOf(nodes: Nodes, order: seq<nat>, k: nat, count: nat): (page: seq<ListNode>)
    requires Members(nodes, order) && k + count <= |order|
    ensures |page| == count && forall i :: 0 <= i < count ==> page[i] == nodes[order[k + i]]
  {
    seq(count, i requires 0 <= i < count => nodes[order[k + i]])
  }

  ghost function PageFrom(nodes: Nodes, order: seq<nat>, startId: Option<nat>,
                          limit: nat): Result<seq<ListNode>, ListError>
    requires Members(nodes, order)
  {
    var k := StartPlace(order, startId);
    var left := |order| - k;
    if startId.Some? && startId.value !in order then
      if limit == 0 then Ok([]) else Err(Aborted)
    else if left <= limit && left <= 50 then Ok(PageOf(nodes, order, k, left))
    else if limit < 50 then Ok(PageOf(nodes, order, k, limit))
    else Err(ListTraversalLimitExceeded)
  }

  lemma PageStarts(nodes: Nodes, meta: ListMetadata, order: seq<nat>, startId: Option<nat>)
    requires Consistent(nodes, meta, order)
    ensures startId.None? ==> meta.head == At(order, 0)
    ensures startId.Some? && startId.value in order ==> startId == At(order, StartPlace(order, startId))
    ensures startId.Some? && startId.value !in order ==> startId.value !in nodes
    ensures Members(nodes, order) && PageOf(nodes, order, StartPlace(order, startId), 0) == []
  {
  }

  lemma PageGrows(nodes: Nodes, order: seq<nat>, k: nat, count: nat)
    requires Represents(nodes, order) && k + count < |order|
    ensures nodes[order[k + count]].next == At(order, k + count + 1)
    ensures PageOf(nodes, order, k, count + 1) == PageOf(nodes, order, k, count) + [nodes[order[k + count]]]
  {
    NeighboursStored(nodes, order, k + count);
  }
}

/** The doubly linked list of Kernel/Library/LinkedList.hpp. A node is named by its address; the fields
    of all nodes form one map each, and `new` hands out an address no node has. */
module LinkedLists {

  type Ptr = int
  const NULL: Ptr := 0

  /** The node at position i, or NULL past either end. */
  function At(nodes: seq<Ptr>, i: int): Ptr {
    if 0 <= i < |nodes| then nodes[i] else NULL
  }

  predicate Apart(nodes: seq<Ptr>, i: int, j: int) {
    0 <= i < j < |nodes| ==> nodes[i] != nodes[j]
  }

  /** No node stands twice. */
  ghost predicate Distinct(nodes: seq<Ptr>) {
    forall i, j :: Apart(nodes, i, j)
  }

  /** Node k stands nowhere else. */
  predicate Alone(nodes: seq<Ptr>, k: int) {
    forall i :: 0 <= i < |nodes| && i != k && 0 <= k < |nodes| ==> nodes[i] != nodes[k]
  }

  lemma DistinctAlone(nodes: seq<Ptr>, k: int)
    requires Distinct(nodes)
    ensures Alone(nodes, k)
  {
    forall i | 0 <= i < |nodes| && i != k && 0 <= k < |nodes|
      ensures nodes[i] != nodes[k]
    {
      assert Apart(nodes, i, k) && Apart(nodes, k, i);
    }
  }

  /** Both pointers of the node at position i lead to its neighbours. */
  predicate Joined(next: map<Ptr, Ptr>, prev: map<Ptr, Ptr>, nodes: seq<Ptr>, i: int) {
    0 <= i < |nodes| ==>
      && nodes[i] != NULL && nodes[i] in next && nodes[i] in prev
      && next[nodes[i]] == At(nodes, i + 1) && prev[nodes[i]] == At(nodes, i - 1)
  }

  /** `next` and `prev` undo each other along the nodes. */
  ghost predicate Chained(next: map<Ptr, Ptr>, prev: map<Ptr, Ptr>, nodes: seq<Ptr>) {
    forall i :: Joined(next, prev, nodes, i)
  }

  function Inserted<T>(nodes: seq<T>, k: nat, n: T): seq<T>
    requires k <= |nodes|
  {
    nodes[..k] + [n] + nodes[k..]
  }

  function Removed<T>(nodes: seq<T>, k: nat): seq<T>
    requires k < |nodes|
  {
    nodes[..k] + nodes[k + 1..]
  }

  lemma RemovedInserted(nodes: seq<Ptr>, k: nat, n: Ptr)
    requires k <= |nodes|
    ensures Removed(Inserted(nodes, k, n), k) == nodes
  {
  }

  lemma DistinctInserted(nodes: seq<Ptr>, k: nat, n: Ptr)
    requires Distinct(nodes) && k <= |nodes| && n !in nodes
    ensures Distinct(Inserted(nodes, k, n))
  {
    var all := Inserted(nodes, k, n);
    forall i, j
      ensures Apart(all, i, j)
    {
      assert Apart(nodes, if i < k then i else i - 1, if j < k then j else j - 1);
    }
  }

  lemma DistinctRemoved(nodes: seq<Ptr>, k: nat)
    requires Distinct(nodes) && k < |nodes|
    ensures Distinct(Removed(nodes, k))
  {
    var rest := Removed(nodes, k);
    forall i, j
      ensures Apart(rest, i, j)
    {
      assert Apart(nodes, if i < k then i else i + 1, if j < k then j else j + 1);
    }
  }

  /** The writes of an insertion between two neighbours: the new node's own field, then the neighbour's. */
  function LinkNext(next: map<Ptr, Ptr>, n: Ptr, before: Ptr, after: Ptr): map<Ptr, Ptr> {
    if before != NULL then next[n := after][before := n] else next[n := after]
  }

  function LinkPrev(prev: map<Ptr, Ptr>, n: Ptr, before: Ptr, after: Ptr): map<Ptr, Ptr> {
    if after != NULL then prev[n := before][after := n] else prev[n := before]
  }

  lemma ChainedInserted(next: map<Ptr, Ptr>, prev: map<Ptr, Ptr>, nodes: seq<Ptr>, k: nat, n: Ptr)
    requires Chained(next, prev, nodes) && k <= |nodes| && n !in nodes && n != NULL
    requires Alone(nodes, k) && Alone(nodes, k - 1)
    ensures var before, after := At(nodes, k - 1), At(nodes, k);
            Chained(LinkNext(next, n, before, after), LinkPrev(prev, n, before, after), Inserted(nodes, k, n))
  {
    var before, after := At(nodes, k - 1), At(nodes, k);
    var next', prev', all := LinkNext(next, n, before, after), LinkPrev(prev, n, before, after), Inserted(nodes, k, n);
    forall i
      ensures Joined(next', prev', all, i)
    {
      if 0 <= i < k {
        assert Joined(next, prev, nodes, i) && all[i] == nodes[i] && nodes[i] in nodes;
      } else if k < i < |all| {
        assert Joined(next, prev, nodes, i - 1) && all[i] == nodes[i - 1] && nodes[i - 1] in nodes;
      }
    }
  }

  function UnlinkNext(next: map<Ptr, Ptr>, before: Ptr, after: Ptr): map<Ptr, Ptr> {
    if before != NULL then next[before := after] else next
  }

  function UnlinkPrev(prev: map<Ptr, Ptr>, before: Ptr, after: Ptr): map<Ptr, Ptr> {
    if after != NULL then prev[after := before] else prev
  }

  lemma ChainedRemoved(next: map<Ptr, Ptr>, prev: map<Ptr, Ptr>, nodes: seq<Ptr>, k: nat)
    requires Chained(next, prev, nodes) && k < |nodes|
    requires Alone(nodes, k + 1) && Alone(nodes, k - 1)
    ensures var before, after := At(nodes, k - 1), At(nodes, k + 1);
            Chained(UnlinkNext(next, before, after), UnlinkPrev(prev, before, after), Removed(nodes, k))
  {
    var before, after := At(nodes, k - 1), At(nodes, k + 1);
    var next', prev', rest := UnlinkNext(next, before, after), UnlinkPrev(prev, before, after), Removed(nodes, k);
    forall i
      ensures Joined(next', prev', rest, i)
    {
      if 0 <= i < k {
        assert Joined(next, prev, nodes, i) && rest[i] == nodes[i];
      } else if k <= i < |rest| {
        assert Joined(next, prev, nodes, i + 1) && rest[i] == nodes[i + 1];
      }
    }
  }

  // ---------- A whole list ----------

  datatype Shape = Shape(next: map<Ptr, Ptr>, prev: map<Ptr, Ptr>, head: Ptr, tail: Ptr, nodes: seq<Ptr>)

  ghost predicate WellChained(s: Shape) {
    && Distinct(s.nodes) && Chained(s.next, s.prev, s.nodes)
    && s.head == At(s.nodes, 0) && s.tail == At(s.nodes, |s.nodes| - 1)
  }

  type List = s: Shape | WellChained(s) ghost witness Shape(map[], map[], NULL, NULL, [])

  lemma Neighbours(s: List, k: nat)
    requires k < |s.nodes|
    ensures var n := s.nodes[k];
            && n != NULL && n in s.next && n in s.prev && n in s.nodes
            && s.next[n] == At(s.nodes, k + 1) && s.prev[n] == At(s.nodes, k - 1)
            && (n == s.head <==> k == 0) && (n == s.tail <==> k == |s.nodes| - 1)
            && (s.next[n] == NULL <==> k == |s.nodes| - 1) && (s.prev[n] == NULL <==> k == 0)
  {
    DistinctAlone(s.nodes, k);
    assert Joined(s.next, s.prev, s.nodes, k) && Joined(s.next, s.prev, s.nodes, k + 1) && Joined(s.next, s.prev, s.nodes, k - 1);
  }

  lemma Ends(s: List)
    ensures s.head == NULL <==> s.nodes == []
    ensures s.tail == NULL <==> s.nodes == []
  {
    if s.nodes != [] {
      Neighbours(s, 0);
      Neighbours(s, |s.nodes| - 1);
    }
  }

  function Insert(s: Shape, k: nat, n: Ptr): Shape
    requires k <= |s.nodes|
  {
    var before, after := At(s.nodes, k - 1), At(s.nodes, k);
    Shape(LinkNext(s.next, n, before, after), LinkPrev(s.prev, n, before, after),
          if k == 0 then n else s.head, if k == |s.nodes| then n else s.tail, Inserted(s.nodes, k, n))
  }

  lemma InsertWell(s: List, k: nat, n: Ptr)
    requires k <= |s.nodes| && n !in s.nodes && n != NULL
    ensures WellChained(Insert(s, k, n))
  {
    DistinctAlone(s.nodes, k);
    DistinctAlone(s.nodes, k - 1);
    DistinctInserted(s.nodes, k, n);
    ChainedInserted(s.next, s.prev, s.nodes, k, n);
  }

  function Remove(s: Shape, k: nat): Shape
    requires k < |s.nodes|
  {
    var before, after := At(s.nodes, k - 1), At(s.nodes, k + 1);
    Shape(UnlinkNext(s.next, before, after), UnlinkPrev(s.prev, before, after),
          if k == 0 then after else s.head, if k == |s.nodes| - 1 then before else s.tail, Removed(s.nodes, k))
  }

  lemma RemoveWell(s: List, k: nat)
    requires k < |s.nodes|
    ensures WellChained(Remove(s, k))
  {
    DistinctAlone(s.nodes, k + 1);
    DistinctAlone(s.nodes, k - 1);
    DistinctRemoved(s.nodes, k);
    ChainedRemoved(s.next, s.prev, s.nodes, k);
  }

  predicate StoredAt<T>(nodes: seq<Ptr>, data: map<Ptr, T>, i: int) {
    0 <= i < |nodes| ==> nodes[i] in data
  }

  /** Every node has a value. */
  ghost predicate Stored<T>(nodes: seq<Ptr>, data: map<Ptr, T>) {
    forall i :: StoredAt(nodes, data, i)
  }

  lemma StoredRemoved<T>(nodes: seq<Ptr>, data: map<Ptr, T>, k: nat)
    requires Stored(nodes, data) && k < |nodes|
    ensures Stored(Removed(nodes, k), data)
  {
    forall i
      ensures StoredAt(Removed(nodes, k), data, i)
    {
      assert StoredAt(nodes, data, if i < k then i else i + 1);
    }
  }

  lemma StoredInserted<T>(nodes: seq<Ptr>, data: map<Ptr, T>, k: nat, node: Ptr, val: T)
    requires Stored(nodes, data) && k <= |nodes|
    ensures Stored(Inserted(nodes, k, node), data[node := val])
  {
    var all, data' := Inserted(nodes, k, node), data[node := val];
    forall i
      ensures StoredAt(all, data', i)
    {
      assert StoredAt(nodes, data, if i < k then i else i - 1);
    }
  }

  /** The address of a new node stands in no list. */
  lemma NotListed<T>(nodes: seq<Ptr>, data: map<Ptr, T>, node: Ptr)
    requires Stored(nodes, data) && node !in data
    ensures node !in nodes
  {
    forall i | 0 <= i < |nodes|
      ensures nodes[i] != node
    {
      assert StoredAt(nodes, data, i);
    }
  }

  lemma StoredWithout<T>(nodes: seq<Ptr>, data: map<Ptr, T>, node: Ptr)
    requires Stored(nodes, data) && node !in nodes
    ensures Stored(nodes, data - {node})
  {
    var rest := data - {node};
    forall i
      ensures StoredAt(nodes, rest, i)
    {
      assert StoredAt(nodes, data, i);
    }
  }

  /** The values stored in a row of nodes. */
  ghost function Values<T>(nodes: seq<Ptr>, data: map<Ptr, T>): seq<T>
    requires Stored(nodes, data)
  {
    seq(|nodes|, i requires 0 <= i < |nodes| => assert StoredAt(nodes, data, i); data[nodes[i]])
  }

  /** A new node carrying `val` at place k puts `val` at place k of the values. */
  lemma ValuesInserted<T>(nodes: seq<Ptr>, data: map<Ptr, T>, k: nat, node: Ptr, val: T)
    requires Stored(nodes, data) && k <= |nodes| && node !in nodes
    ensures Stored(Inserted(nodes, k, node), data[node := val])
    ensures Values(Inserted(nodes, k, node), data[node := val]) == Inserted(Values(nodes, data), k, val)
  {
    StoredInserted(nodes, data, k, node, val);
    var all := Inserted(nodes, k, node);
    forall i | 0 <= i < |all|
      ensures Values(all, data[node := val])[i] == Inserted(Values(nodes, data), k, val)[i]
    {
      if i < k {
        assert all[i] == nodes[i] && nodes[i] in nodes;
      } else if i > k {
        assert all[i] == nodes[i - 1] && nodes[i - 1] in nodes;
      }
    }
  }

  /** Taking node k out takes value k out and keeps the rest in order. */
  lemma ValuesRemoved<T>(nodes: seq<Ptr>, data: map<Ptr, T>, k: nat)
    requires Stored(nodes, data) && k < |nodes|
    ensures Stored(Removed(nodes, k), data)
    ensures Values(Removed(nodes, k), data) == Removed(Values(nodes, data), k)
  {
    StoredRemoved(nodes, data, k);
    var rest := Removed(nodes, k);
    forall i | 0 <= i < |rest|
      ensures Values(rest, data)[i] == Removed(Values(nodes, data), k)[i]
    {
      assert rest[i] == nodes[if i < k then i else i + 1];
    }
  }

  /** A row read backwards has the same members. */
  lemma SameMembers(p: seq<Ptr>, q: seq<Ptr>)
    requires |p| == |q| && forall i :: 0 <= i < |p| ==> p[i] == q[|q| - 1 - i]
    ensures (set n | n in p) == (set n | n in q)
  {
    forall i | 0 <= i < |q|
      ensures q[i] in p
    {
      assert p[|q| - 1 - i] == q[i];
    }
  }

  lemma RemovedLast(s: List)
    requires s.nodes != []
    ensures var m := |s.nodes| - 1; Removed(s.nodes, m) == s.nodes[..m] && s.nodes[m] !in s.nodes[..m]
  {
    var m := |s.nodes| - 1;
    DistinctAlone(s.nodes, m);
    assert Removed(s.nodes, m) == s.nodes[..m];
  }

  class LinkedList<T> {
    /** The fields of all nodes. */
    var next: map<Ptr, Ptr>
    var prev: map<Ptr, Ptr>
    var data: map<Ptr, T>
    var head: Ptr
    var tail: Ptr
    var count: nat
    /** What the links mean. */
    ghost var list: List

    ghost predicate Valid()
      reads this
    {
      list.next == next && list.prev == prev && list.head == head && list.tail == tail && count == |list.nodes|
      && Stored(list.nodes, data)
    }

    /** The values the list holds, front to back. */
    ghost function Contents(): seq<T>
      requires Valid()
      reads this
    {
      Values(list.nodes, data)
    }

    constructor ()
      ensures Valid() && list.nodes == [] && data == map[]
    {
      next, prev, data, head, tail, count := map[], map[], map[], NULL, NULL, 0;
      list := Shape(map[], map[], NULL, NULL, []);
    }

    /** Puts a new node in front of `at`, node k of the list; does nothing for NULL. */
    method InsertBefore(at: Ptr, val: T, node: Ptr, ghost k: nat)
      requires Valid() && node != NULL && node !in data && k <= |list.nodes| && at == At(list.nodes, k)
      modifies this
      ensures Valid()
      ensures data == if k == |old(list).nodes| then old(data) else old(data)[node := val]
      ensures if k == |old(list).nodes| then list == old(list)
              else list == Insert(old(list), k, node) && Contents() == Inserted(old(Contents()), k, val)
    {
      if k < |list.nodes| {
        Neighbours(list, k);
      }
      if at == NULL {
        return;
      }
      NotListed(list.nodes, data, node);
      InsertWell(list, k, node);
      ValuesInserted(list.nodes, data, k, node, val);
      list := Insert(list, k, node);
      data := data[node := val];
      prev := prev[node := prev[at]];
      prev := prev[at := node];
      next := next[node := at];
      if prev[node] != NULL {
        next := next[prev[node] := node];
      } else {
        head := node;
      }
      count := count + 1;
    }

    /** Puts a new node behind `at`, node k of the list; does nothing for NULL. */
    method InsertAfter(at: Ptr, val: T, node: Ptr, ghost k: int)
      requires Valid() && node != NULL && node !in data && -1 <= k < |list.nodes| && at == At(list.nodes, k)
      modifies this
      ensures Valid()
      ensures data == if k == -1 then old(data) else old(data)[node := val]
      ensures if k == -1 then list == old(list)
              else list == Insert(old(list), k + 1, node) && Contents() == Inserted(old(Contents()), k + 1, val)
    {
      if k >= 0 {
        Neighbours(list, k);
      }
      if at == NULL {
        return;
      }
      NotListed(list.nodes, data, node);
      InsertWell(list, k + 1, node);
      ValuesInserted(list.nodes, data, k + 1, node, val);
      list := Insert(list, k + 1, node);
      data := data[node := val];
      next := next[node := next[at]];
      next := next[at := node];
      prev := prev[node := at];
      if next[node] != NULL {
        prev := prev[next[node] := node];
      } else {
        tail := node;
      }
      count := count + 1;
    }

    method InsertFront(val: T, node: Ptr)
      requires Valid() && node != NULL && node !in data
      modifies this
      ensures Valid() && list == Insert(old(list), 0, node) && Contents() == [val] + old(Contents())
      ensures data == old(data)[node := val]
    {
      Ends(list);
      if head != NULL {
        InsertBefore(head, val, node, 0);
      } else {
        NotListed(list.nodes, data, node);
        InsertWell(list, 0, node);
        ValuesInserted(list.nodes, data, 0, node, val);
        list := Insert(list, 0, node);
        next, prev, data := next[node := NULL], prev[node := NULL], data[node := val];
        head := node;
        tail := head;
        count := count + 1;
      }
    }

    method InsertBack(val: T, node: Ptr)
      requires Valid() && node != NULL && node !in data
      modifies this
      ensures Valid() && list == Insert(old(list), |old(list).nodes|, node) && Contents() == old(Contents()) + [val]
      ensures data == old(data)[node := val]
    {
      Ends(list);
      if tail != NULL {
        InsertAfter(tail, val, node, |list.nodes| - 1);
      } else {
        NotListed(list.nodes, data, node);
        InsertWell(list, 0, node);
        ValuesInserted(list.nodes, data, 0, node, val);
        list := Insert(list, 0, node);
        next, prev, data := next[node := NULL], prev[node := NULL], data[node := val];
        tail := node;
        head := tail;
        count := count + 1;
      }
    }

    /** Takes node k, which is `del`, out of the list. The node itself keeps its fields. */
    method RemoveNode(del: Ptr, ghost k: nat)
      requires Valid() && k < |list.nodes| && del == list.nodes[k]
      modifies this`next, this`prev, this`head, this`tail, this`count, this`list
      ensures Valid() && list == Remove(old(list), k) && Contents() == Removed(old(Contents()), k)
    {
      Neighbours(list, k);
      RemoveWell(list, k);
      ValuesRemoved(list.nodes, data, k);
      list := Remove(list, k);
      if del == head {
        head := next[del];
      }
      if del == tail {
        tail := prev[del];
      }
      if next[del] != NULL {
        prev := prev[next[del] := prev[del]];
      }
      if prev[del] != NULL {
        next := next[prev[del] := next[del]];
      }
      count := count - 1;
    }

    /** The first node, or NULL from an empty list. */
    method RemoveFront() returns (node: Ptr)
      requires Valid()
      modifies this`next, this`prev, this`head, this`tail, this`count, this`list
      ensures Valid() && node == At(old(list).nodes, 0)
      ensures list == if old(list).nodes == [] then old(list) else Remove(old(list), 0)
      ensures node == NULL <==> old(list).nodes == []
    {
      Ends(list);
      if head == NULL {
        return NULL;
      }
      node := head;
      RemoveNode(node, 0);
    }

    /** The last node, or NULL from an empty list. */
    method RemoveBack() returns (node: Ptr)
      requires Valid()
      modifies this`next, this`prev, this`head, this`tail, this`count, this`list
      ensures Valid() && node == At(old(list).nodes, |old(list).nodes| - 1)
      ensures list == if old(list).nodes == [] then old(list) else Remove(old(list), |old(list).nodes| - 1)
      ensures node == NULL <==> old(list).nodes == []
    {
      Ends(list);
      if tail == NULL {
        return NULL;
      }
      node := tail;
      RemoveNode(node, |list.nodes| - 1);
    }

    /** Removes the predecessor of `node`, node k; the original dereferences NULL when there is none. */
    method RemoveBefore(node: Ptr, ghost k: nat) returns (before: Ptr)
      requires Valid() && (node != NULL ==> 0 < k < |list.nodes| && node == list.nodes[k])
      modifies this`next, this`prev, this`head, this`tail, this`count, this`list
      ensures Valid()
      ensures if node == NULL then before == NULL && list == old(list)
              else before == old(list).nodes[k - 1] && list == Remove(old(list), k - 1)
    {
      if node == NULL {
        return NULL;
      }
      Neighbours(list, k);
      before := prev[node];
      RemoveNode(before, k - 1);
    }

    /** Removes the successor of `node`, node k; the original dereferences NULL when there is none. */
    method RemoveAfter(node: Ptr, ghost k: nat) returns (after: Ptr)
      requires Valid() && (node != NULL ==> k + 1 < |list.nodes| && node == list.nodes[k])
      modifies this`next, this`prev, this`head, this`tail, this`count, this`list
      ensures Valid()
      ensures if node == NULL then after == NULL && list == old(list)
              else after == old(list).nodes[k + 1] && list == Remove(old(list), k + 1)
    {
      if node == NULL {
        return NULL;
      }
      Neighbours(list, k);
      after := next[node];
      RemoveNode(after, k + 1);
    }

    /** The destructor: every node is removed once, from the back, and deleted. `freed` lists the deleted nodes. */
    method Destroy() returns (ghost freed: seq<Ptr>)
      requires Valid()
      modifies this
      ensures Valid() && list.nodes == []
      ensures |freed| == |old(list).nodes| && forall i :: 0 <= i < |freed| ==> freed[i] == old(list).nodes[|freed| - 1 - i]
      ensures data == old(data) - set n | n in old(list).nodes
    {
      freed := [];
      ghost var q := list.nodes;
      while true
        invariant Valid()
        invariant list.nodes <= q && |list.nodes| + |freed| == |q|
        invariant forall i :: 0 <= i < |freed| ==> freed[i] == q[|q| - 1 - i]
        invariant data == old(data) - set n | n in freed
        decreases |list.nodes|
      {
        var back := PopBack();
        if back == NULL {
          break;
        }
        StoredWithout(list.nodes, data, back);
        data := data - {back};
        assert (set n | n in freed + [back]) == (set n | n in freed) + {back};
        freed := freed + [back];
      }
      SameMembers(freed, q);
    }

    /** `RemoveBack` as the destructor sees it. */
    method PopBack() returns (node: Ptr)
      requires Valid()
      modifies this`next, this`prev, this`head, this`tail, this`count, this`list
      ensures Valid() && node !in list.nodes
      ensures if old(list).nodes == [] then node == NULL && list == old(list)
              else node != NULL && old(list).nodes == list.nodes + [node]
    {
      Ends(list);
      if tail != NULL {
        RemovedLast(list);
      }
      node := RemoveBack();
    }
  }
}

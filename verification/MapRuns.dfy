/** Whole runs of the map: any sequence of updates, and what a lookup answers afterwards. */
module MapRuns {
  import opened OrderedMap
  import opened RedBlackTree
  import Iterators

  datatype Op<K, V> = Insert(key: K, val: V) | Assign(key: K, val: V) | Erase(key: K) | Clear

  // What one update does to the sorted entries.
  function Step<K, V>(less: (K, K) -> bool, es: seq<Entry<K, V>>, op: Op<K, V>): seq<Entry<K, V>> {
    match op
    case Insert(k, v) => Inserted(less, es, k, v)
    case Assign(k, v) => Assigned(less, es, k, v)
    case Erase(k) => Erased(less, es, k)
    case Clear => []
  }

  function Applied<K, V>(less: (K, K) -> bool, ops: seq<Op<K, V>>): seq<Entry<K, V>> {
    if ops == [] then [] else Step(less, Applied(less, ops[..|ops| - 1]), ops[|ops| - 1])
  }

  // The plain map, read off the history alone: the value the key q has after the updates.
  function After<K, V>(less: (K, K) -> bool, ops: seq<Op<K, V>>, q: K): Option<V> {
    if ops == [] then None
    else
      var before := After(less, ops[..|ops| - 1], q);
      match ops[|ops| - 1]
      case Insert(k, v) => if Same(less, k, q) && before == None then Some(v) else before
      case Assign(k, v) => if Same(less, k, q) then Some(v) else before
      case Erase(k) => if Same(less, k, q) then None else before
      case Clear => None
  }

  lemma {:induction false} AppliedSorted<K(!new), V>(less: (K, K) -> bool, ops: seq<Op<K, V>>)
    requires StrictWeakOrder(less)
    ensures Sorted(less, Applied(less, ops))
  {
    if ops != [] {
      var es := Applied(less, ops[..|ops| - 1]);
      AppliedSorted(less, ops[..|ops| - 1]);
      match ops[|ops| - 1]
      case Insert(k, v) => InsertedSorted(less, es, k, v);
      case Assign(k, v) => InsertedSorted(less, es, k, v);
      case Erase(k) => ErasedSorted(less, es, k);
      case Clear =>
    }
  }

  // The sorted entries and the plain map agree on every key after every history.
  lemma {:induction false} AppliedIsPlainMap<K(!new), V>(less: (K, K) -> bool, ops: seq<Op<K, V>>, q: K)
    requires StrictWeakOrder(less)
    ensures Lookup(less, Applied(less, ops), q) == After(less, ops, q)
  {
    if ops != [] {
      var es := Applied(less, ops[..|ops| - 1]);
      AppliedSorted(less, ops[..|ops| - 1]);
      AppliedIsPlainMap(less, ops[..|ops| - 1], q);
      match ops[|ops| - 1]
      case Insert(k, v) => LookupInserted(less, es, k, v, q);
      case Assign(k, v) => LookupAssigned(less, es, k, v, q);
      case Erase(k) => LookupErased(less, es, k, q);
      case Clear =>
    }
  }

  // How many nodes an update allocates, and how many a history does: one for each Insert, present or not, and
  // one for each assignment to an absent key.
  function Allocates<K, V>(less: (K, K) -> bool, es: seq<Entry<K, V>>, op: Op<K, V>): nat {
    match op
    case Insert(_, _) => 1
    case Assign(k, _) => if Has(less, es, k) then 0 else 1
    case Erase(_) => 0
    case Clear => 0
  }

  function Allocated<K, V>(less: (K, K) -> bool, ops: seq<Op<K, V>>): nat {
    if ops == [] then 0
    else
      var before := ops[..|ops| - 1];
      Allocated(less, before) + Allocates(less, Applied(less, before), ops[|ops| - 1])
  }

  method Do<K(!new), V>(m: Map<K, V>, op: Op<K, V>)
    requires m.Valid()
    modifies m, m.nil, m.nodes
    ensures m.Valid() && m.entries == Step(m.less, old(m.entries), op)
    ensures fresh(m.owned - old(m.owned)) && |m.owned| == |old(m.owned)| + Allocates(m.less, old(m.entries), op)
  {
    if op.Insert? {
      var _, _ := m.Insert(op.key, op.val);
    } else if op.Assign? {
      m.Assign(op.key, op.val);
    } else if op.Erase? {
      var _ := m.Erase(op.key);
    } else {
      m.Clear();
    }
  }

  method Run<K(!new), V>(less: (K, K) -> bool, dk: K, dv: V, ops: seq<Op<K, V>>) returns (m: Map<K, V>)
    requires StrictWeakOrder(less)
    ensures m.Valid() && m.less == less && m.entries == Applied(less, ops) && |m.owned| == Allocated(less, ops)
    ensures fresh(m) && fresh(m.nil) && fresh(m.owned)
  {
    m := new Map(less, dk, dv);
    var i := 0;
    while i < |ops|
      invariant 0 <= i <= |ops| && m.Valid() && m.less == less
      invariant fresh(m) && fresh(m.nil) && fresh(m.owned)
      invariant m.entries == Applied(less, ops[..i]) && |m.owned| == Allocated(less, ops[..i])
    {
      assert ops[..i + 1][..i] == ops[..i];
      Do(m, ops[i]);
      i := i + 1;
    }
    assert ops[..|ops|] == ops;
  }

  // After any updates whatever and a last Clear, every node that was ever allocated has been freed.
  method RunThenClear<K(!new), V>(less: (K, K) -> bool, dk: K, dv: V, ops: seq<Op<K, V>>) returns (m: Map<K, V>)
    requires StrictWeakOrder(less)
    ensures m.Valid() && m.entries == []
    ensures m.freed == m.owned && |m.freed| == Allocated(less, ops)
  {
    m := Run(less, dk, dv, ops);
    m.Clear();
  }

  // After any updates whatever, Find on the tree answers as the plain map does.
  method RunThenFind<K(!new), V>(less: (K, K) -> bool, dk: K, dv: V, ops: seq<Op<K, V>>, q: K) returns (r: Option<V>)
    requires StrictWeakOrder(less)
    ensures r == After(less, ops, q)
  {
    var m := Run(less, dk, dv, ops);
    AppliedIsPlainMap(less, ops, q);
    var n, _ := m.Find(q);
    if n == m.nil {
      return None;
    }
    return Some(n.value);
  }

  // After any updates whatever, iterating lists strictly increasing keys, each with the plain map's value.
  method RunThenIterate<K(!new), V>(less: (K, K) -> bool, dk: K, dv: V, ops: seq<Op<K, V>>)
    returns (es: seq<Entry<K, V>>)
    requires StrictWeakOrder(less)
    ensures Sorted(less, es)
    ensures forall i :: 0 <= i < |es| ==> After(less, ops, es[i].0) == Some(es[i].1)
    ensures forall q :: After(less, ops, q) != None ==> exists i :: 0 <= i < |es| && Same(less, es[i].0, q)
  {
    var m := Run(less, dk, dv, ops);
    es := Iterators.Forward(m);
    AppliedSorted(less, ops);
    forall q
      ensures After(less, ops, q) == Lookup(less, es, q)
      ensures After(less, ops, q) != None ==> exists i :: 0 <= i < |es| && Same(less, es[i].0, q)
      ensures forall i :: 0 <= i < |es| && Same(less, es[i].0, q) ==> After(less, ops, q) == Some(es[i].1)
    {
      AppliedIsPlainMap(less, ops, q);
      LookupExactly(less, es, q);
    }
  }

  // ---------- the one link that can go stale ----------

  // A tree of three nodes is a root and two leaves.
  lemma ThreeNodes<K(!new), V>(m: Map<K, V>)
    requires m.Valid() && |m.order| == 3
    ensures m.order[0].parent == m.order[1] && m.order[0].left == m.nil && m.order[0].right == m.nil
  {
    assert m.Linked(m.root) && m.Painted(m.root, m.nil, m.nil, true);
    var a, b, c := m.order[0], m.order[1], m.order[2];
    assert m.Linked(a) && m.Linked(b) && m.Linked(c);
    assert m.Painted(a, m.nil, m.nil, true) && m.Painted(b, m.nil, m.nil, true) && m.Painted(c, m.nil, m.nil, true);
  }

  // Erasing a leaf below the root leaves its parent's address in the shared sentinel, and freeing that
  // parent does not clear it: the sentinel's own parent link then names a freed node.
  method EraseLeafThenClear<K(!new), V>(m: Map<K, V>, leaf: Node<K, V>)
    requires m.Valid() && leaf in m.nodes && leaf.left == m.nil && leaf.right == m.nil && leaf != m.root
    modifies m, m.nil, m.nodes
    ensures m.Valid() && m.nil.parent in m.freed
  {
    assert m.Linked(leaf);
    m.EraseAt(leaf);
    m.Clear();
  }

  // So does erasing the node the link names when that node has exactly one child.
  method EraseLender<K(!new), V>(m: Map<K, V>)
    requires m.Valid() && m.nil.parent in m.nodes
    requires (m.nil.parent.left == m.nil) != (m.nil.parent.right == m.nil)
    modifies m, m.nil, m.nodes
    ensures m.Valid() && m.nil.parent in m.freed
  {
    m.FillerIsReal(m.nil.parent);
    m.EraseAt(m.nil.parent);
  }

  method ThreeKeys() returns (m: Map<int, int>)
    ensures fresh(m) && fresh(m.nil) && fresh(m.owned) && m.Valid()
    ensures |m.entries| == 3
  {
    var less := (a: int, b: int) => a < b;
    m := Run(less, 0, 0, [Insert(1, 0), Insert(2, 0), Insert(3, 0)]);
    ThreeKeysEntries(less);
  }

  lemma ThreeKeysEntries(less: (int, int) -> bool)
    requires forall a: int, b: int :: less(a, b) == (a < b)
    ensures Applied(less, [Insert(1, 0), Insert(2, 0), Insert(3, 0)]) == [(1, 0), (2, 0), (3, 0)]
  {
    var ops: seq<Op<int, int>> := [Insert(1, 0), Insert(2, 0), Insert(3, 0)];
    assert ops[..2] == [Insert(1, 0), Insert(2, 0)];
    assert ops[..2][..1] == [Insert(1, 0)];
    assert ops[..2][..1][..0] == [];
    assert Applied(less, ops[..2][..1]) == [(1, 0)];
    assert Applied(less, ops[..2]) == [(1, 0), (2, 0)];
  }

  // Such a run: insert 1, 2 and 3, erase 1, clear.
  method StaleSentinelParent() returns (m: Map<int, int>)
    ensures m.Valid() && m.nil.parent in m.freed
  {
    m := ThreeKeys();
    ThreeNodes(m);
    var first := m.Minimum(m.root);
    assert m.Linked(m.root);
    EraseLeafThenClear(m, first);
  }
}

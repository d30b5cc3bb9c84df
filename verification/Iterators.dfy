/** The bidirectional iterator over the tree and the reverse iterator built on it. */
module Iterators {
  import opened OrderedMap
  import opened RedBlackTree

  class Iterator<K(!new), V> {
    var node: Node<K, V>
    const owner: Map<K, V>

    constructor (node: Node<K, V>, owner: Map<K, V>)
      ensures this.node == node && this.owner == owner
    {
      this.node, this.owner := node, owner;
    }

    // The iterator names a node of the tree or, as End() does, the sentinel.
    ghost predicate Valid()
      reads this, owner, owner.nil, owner.nodes
    {
      owner.Valid() && (node == owner.nil || node in owner.nodes)
    }

    // Its place in the sorted sequence; the place after the last entry is End().
    ghost function Place(): int
      requires Valid()
      reads this, owner, owner.nil, owner.nodes
    {
      if node == owner.nil then |owner.order| else node.pos
    }

    // operator++
    method Next()
      requires Valid()
      modifies this`node
      ensures Valid()
      ensures Place() == if old(Place()) < |owner.order| then old(Place()) + 1 else old(Place())
    {
      if node == owner.nil {
        return;
      }
      node := owner.Successor(node);
    }

    // operator--: from End() to the last entry, and from the first entry to End().
    method Prev()
      requires Valid()
      modifies this`node
      ensures Valid()
      ensures Place() == if old(Place()) > 0 then old(Place()) - 1 else |owner.order|
    {
      if node == owner.nil {
        assert owner.root in owner.nodes ==> owner.Linked(owner.root);
        node := owner.Maximum(owner.root);
        return;
      }
      node := owner.Predecessor(node);
    }
  }

  class ReverseIterator<K(!new), V> {
    const base: Iterator<K, V>

    constructor (it: Iterator<K, V>)
      ensures base.node == it.node && base.owner == it.owner && fresh(base)
    {
      base := new Iterator(it.node, it.owner);
    }

    // operator*: the entry before the one the base iterator names.
    method Deref() returns (e: Entry<K, V>)
      requires base.Valid() && base.Place() > 0
      ensures base.Valid() && e == base.owner.entries[base.Place() - 1]
    {
      var temp := new Iterator(base.node, base.owner);
      temp.Prev();
      e := (temp.node.key, temp.node.value);
    }

    // operator++ steps the base iterator back, operator-- steps it on.
    method Next()
      requires base.Valid()
      modifies base`node
      ensures base.Valid()
      ensures base.Place() == if old(base.Place()) > 0 then old(base.Place()) - 1 else |base.owner.order|
    {
      base.Prev();
    }

    // *it++: the entry named before the step.
    method Take() returns (e: Entry<K, V>)
      requires base.Valid() && base.Place() > 0
      modifies base`node
      ensures base.Valid() && base.Place() == old(base.Place()) - 1
      ensures e == base.owner.entries[base.Place()]
    {
      e := Deref();
      Next();
    }

    method Prev()
      requires base.Valid()
      modifies base`node
      ensures base.Valid()
      ensures base.Place() == if old(base.Place()) < |base.owner.order| then old(base.Place()) + 1
              else old(base.Place())
    {
      base.Next();
    }
  }

  method Begin<K(!new), V>(m: Map<K, V>) returns (it: Iterator<K, V>)
    requires m.Valid()
    ensures m.Valid() && fresh(it) && it.owner == m && it.Valid() && it.Place() == 0
  {
    assert m.root in m.nodes ==> m.Linked(m.root);
    var first := m.Minimum(m.root);
    it := new Iterator(first, m);
  }

  method End<K(!new), V>(m: Map<K, V>) returns (it: Iterator<K, V>)
    requires m.Valid()
    ensures m.Valid() && fresh(it) && it.owner == m && it.node == m.nil && it.Valid() && it.Place() == |m.order|
  {
    it := new Iterator(m.nil, m);
  }

  // A full pass with operator++ from Begin() to End() yields every entry once, in order.
  method Forward<K(!new), V>(m: Map<K, V>) returns (es: seq<Entry<K, V>>)
    requires m.Valid()
    ensures es == m.entries
  {
    es := [];
    var it := Begin(m);
    var end := End(m);
    while it.node != end.node
      invariant m.Valid() && fresh(it) && it.owner == m && it.Valid() && end.node == m.nil
      invariant 0 <= it.Place() <= |m.entries| && es == m.entries[..it.Place()]
      decreases |m.entries| - it.Place()
    {
      es := es + [(it.node.key, it.node.value)];
      it.Next();
    }
  }

  ghost function Reversed<T>(s: seq<T>): (r: seq<T>)
    ensures |r| == |s|
    ensures forall i :: 0 <= i < |s| ==> r[i] == s[|s| - 1 - i]
  {
    if s == [] then [] else Reversed(s[1..]) + [s[0]]
  }

  lemma ReversedTail<T>(s: seq<T>, p: nat)
    requires 0 < p <= |s|
    ensures Reversed(s[p - 1..]) == Reversed(s[p..]) + [s[p - 1]]
  {
    assert s[p - 1..][1..] == s[p..];
  }

  // The same pass with reverse iterators, from RBegin() to REnd(), yields the entries backwards.
  method Backward<K(!new), V>(m: Map<K, V>) returns (es: seq<Entry<K, V>>)
    requires m.Valid()
    ensures es == Reversed(m.entries)
  {
    var begin := Begin(m);
    var first := begin.node;
    var end := End(m);
    var it := new ReverseIterator(end);
    es := [];
    ghost var n := |m.entries|;
    while it.base.node != first
      invariant fresh(it.base) && it.base.owner == m && it.base.Valid()
      invariant first == if n == 0 then m.nil else m.order[0]
      invariant 0 <= it.base.Place() <= n && es == Reversed(m.entries[it.base.Place()..])
      decreases it.base.Place()
    {
      ReversedTail(m.entries, it.base.Place());
      var e := it.Take();
      es := es + [e];
    }
    assert m.entries[0..] == m.entries;
  }
}

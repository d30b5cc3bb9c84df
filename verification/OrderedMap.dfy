/** The plain meaning of an ordered map: a sequence of entries sorted by key.

    Two keys are the same key when neither is less than the other, so a caller's
    comparison only has to be a strict weak order. Everything here is a value; the
    red-black tree is proved to compute these functions.
 */
module OrderedMap {

  datatype Option<+T> = None | Some(value: T)

  type Entry<K, V> = (K, V)

  ghost predicate StrictWeakOrder<K(!new)>(less: (K, K) -> bool) {
    && (forall a :: !less(a, a))
    && (forall a, b, c :: less(a, b) && less(b, c) ==> less(a, c))
    && (forall a, b, c :: less(a, c) ==> less(a, b) || less(b, c))
  }

  predicate Same<K>(less: (K, K) -> bool, a: K, b: K) {
    !less(a, b) && !less(b, a)
  }

  ghost predicate Sorted<K, V>(less: (K, K) -> bool, es: seq<Entry<K, V>>) {
    forall i, j :: 0 <= i < j < |es| ==> less(es[i].0, es[j].0)
  }

  // ---------- scans of the sorted entries ----------

  // The first entry not below k, found by a scan; |es| when there is none.
  function LowerIndex<K, V>(less: (K, K) -> bool, es: seq<Entry<K, V>>, k: K): (i: nat)
    ensures i <= |es|
    ensures forall j :: 0 <= j < i ==> less(es[j].0, k)
    ensures i < |es| ==> !less(es[i].0, k)
  {
    if es == [] || !less(es[0].0, k) then 0 else 1 + LowerIndex(less, es[1..], k)
  }

  // The first entry above k, found by a scan; |es| when there is none.
  function UpperIndex<K, V>(less: (K, K) -> bool, es: seq<Entry<K, V>>, k: K): (i: nat)
    ensures i <= |es|
    ensures forall j :: 0 <= j < i ==> !less(k, es[j].0)
    ensures i < |es| ==> less(k, es[i].0)
  {
    if es == [] || less(k, es[0].0) then 0 else 1 + UpperIndex(less, es[1..], k)
  }

  predicate Has<K, V>(less: (K, K) -> bool, es: seq<Entry<K, V>>, k: K) {
    var i := LowerIndex(less, es, k);
    i < |es| && !less(k, es[i].0)
  }

  function Lookup<K, V>(less: (K, K) -> bool, es: seq<Entry<K, V>>, k: K): Option<V> {
    if Has(less, es, k) then Some(es[LowerIndex(less, es, k)].1) else None
  }

  // ---------- updates ----------

  function Inserted<K, V>(less: (K, K) -> bool, es: seq<Entry<K, V>>, k: K, v: V): seq<Entry<K, V>> {
    var i := LowerIndex(less, es, k);
    if Has(less, es, k) then es else es[..i] + [(k, v)] + es[i..]
  }

  function Erased<K, V>(less: (K, K) -> bool, es: seq<Entry<K, V>>, k: K): seq<Entry<K, V>> {
    var i := LowerIndex(less, es, k);
    if Has(less, es, k) then es[..i] + es[i + 1..] else es
  }

  function Assigned<K, V>(less: (K, K) -> bool, es: seq<Entry<K, V>>, k: K, v: V): seq<Entry<K, V>> {
    var i := LowerIndex(less, es, k);
    if Has(less, es, k) then es[i := (es[i].0, v)] else es[..i] + [(k, v)] + es[i..]
  }

  // Inserting a default and then overwriting the value is assigning.
  lemma AssignedThroughDefault<K, V>(less: (K, K) -> bool, es: seq<Entry<K, V>>, k: K, d: V, v: V)
    ensures var i, t := LowerIndex(less, es, k), Inserted(less, es, k, d);
            i < |t| && t[i := (t[i].0, v)] == Assigned(less, es, k, v)
  {
    var i := LowerIndex(less, es, k);
    if !Has(less, es, k) {
      assert (es[..i] + [(k, d)] + es[i..])[i := (k, v)] == es[..i] + [(k, v)] + es[i..];
    }
  }

  // ---------- what the scans mean ----------

  // A position that splits the keys at k is the one the scan finds.
  lemma LowerIndexUnique<K(!new), V>(less: (K, K) -> bool, es: seq<Entry<K, V>>, k: K, i: nat)
    requires i <= |es|
    requires forall j :: 0 <= j < i ==> less(es[j].0, k)
    requires i < |es| ==> !less(es[i].0, k)
    ensures LowerIndex(less, es, k) == i
  {}

  lemma UpperIndexUnique<K(!new), V>(less: (K, K) -> bool, es: seq<Entry<K, V>>, k: K, i: nat)
    requires i <= |es|
    requires forall j :: 0 <= j < i ==> !less(k, es[j].0)
    requires i < |es| ==> less(k, es[i].0)
    ensures UpperIndex(less, es, k) == i
  {}

  // Every key below the lower bound is less than k, every one above it is not.
  lemma LowerIndexSplits<K(!new), V>(less: (K, K) -> bool, es: seq<Entry<K, V>>, k: K)
    requires StrictWeakOrder(less) && Sorted(less, es)
    ensures forall j :: LowerIndex(less, es, k) <= j < |es| ==> !less(es[j].0, k)
    ensures forall j :: LowerIndex(less, es, k) < j < |es| ==> less(k, es[j].0)
  {
    var l := LowerIndex(less, es, k);
    forall j | l < j < |es|
      ensures !less(es[j].0, k) && less(k, es[j].0)
    {
      assert less(es[l].0, es[j].0);
    }
  }

  // The entry the lookup names is the only one with that key.
  lemma LookupExactly<K(!new), V>(less: (K, K) -> bool, es: seq<Entry<K, V>>, k: K)
    requires StrictWeakOrder(less) && Sorted(less, es)
    ensures Has(less, es, k) <==> exists i :: 0 <= i < |es| && Same(less, es[i].0, k)
    ensures forall i :: 0 <= i < |es| && Same(less, es[i].0, k) ==> Lookup(less, es, k) == Some(es[i].1)
    ensures Lookup(less, es, k) == None <==> !Has(less, es, k)
  {
    LowerIndexSplits(less, es, k);
    if Has(less, es, k) {
      assert Same(less, es[LowerIndex(less, es, k)].0, k);
    }
  }

  // The two bounds differ by the entry with key k, if there is one.
  lemma BoundsBracket<K(!new), V>(less: (K, K) -> bool, es: seq<Entry<K, V>>, k: K)
    requires StrictWeakOrder(less) && Sorted(less, es)
    ensures UpperIndex(less, es, k) == LowerIndex(less, es, k) + (if Has(less, es, k) then 1 else 0)
  {
    LowerIndexSplits(less, es, k);
    var l := LowerIndex(less, es, k);
    UpperIndexUnique(less, es, k, if Has(less, es, k) then l + 1 else l);
  }

  // ---------- sortedness is kept ----------

  lemma InsertedSorted<K(!new), V>(less: (K, K) -> bool, es: seq<Entry<K, V>>, k: K, v: V)
    requires StrictWeakOrder(less) && Sorted(less, es)
    ensures Sorted(less, Inserted(less, es, k, v))
    ensures Sorted(less, Assigned(less, es, k, v))
  {
    LowerIndexSplits(less, es, k);
  }

  lemma ErasedSorted<K(!new), V>(less: (K, K) -> bool, es: seq<Entry<K, V>>, k: K)
    requires Sorted(less, es)
    ensures Sorted(less, Erased(less, es, k))
  {
  }

  // ---------- the sequence behaves as a plain map ----------

  lemma LookupInserted<K(!new), V>(less: (K, K) -> bool, es: seq<Entry<K, V>>, k: K, v: V, q: K)
    requires StrictWeakOrder(less) && Sorted(less, es)
    ensures Lookup(less, Inserted(less, es, k, v), q) ==
            if Same(less, k, q) && Lookup(less, es, q) == None then Some(v) else Lookup(less, es, q)
  {
    LookupExactly(less, es, k);
    LookupExactly(less, es, q);
    if !Has(less, es, k) {
      LookupSpliced(less, es, LowerIndex(less, es, k), k, v, q);
    } else {
      assert Same(less, es[LowerIndex(less, es, k)].0, k);
    }
  }

  // Putting an entry with a new key at its place changes the lookup of that key only.
  lemma LookupSpliced<K(!new), V>(less: (K, K) -> bool, es: seq<Entry<K, V>>, i: nat, k: K, v: V, q: K)
    requires StrictWeakOrder(less) && Sorted(less, es)
    requires i == LowerIndex(less, es, k) && !Has(less, es, k)
    ensures Lookup(less, es[..i] + [(k, v)] + es[i..], q) ==
            if Same(less, k, q) then Some(v) else Lookup(less, es, q)
    ensures Same(less, k, q) ==> Lookup(less, es, q) == None
  {
    var t := es[..i] + [(k, v)] + es[i..];
    InsertedSorted(less, es, k, v);
    LookupExactly(less, es, q);
    LookupExactly(less, t, q);
    LookupExactly(less, es, k);
    assert t[i] == (k, v);
    forall j | 0 <= j < |es|
      ensures t[if j < i then j else j + 1] == es[j]
    {}
    forall j | 0 <= j < |t| && j != i
      ensures t[j] == es[if j < i then j else j - 1]
    {}
  }

  lemma LookupErased<K(!new), V>(less: (K, K) -> bool, es: seq<Entry<K, V>>, k: K, q: K)
    requires StrictWeakOrder(less) && Sorted(less, es)
    ensures Lookup(less, Erased(less, es, k), q) == if Same(less, k, q) then None else Lookup(less, es, q)
  {
    var i, t := LowerIndex(less, es, k), Erased(less, es, k);
    ErasedSorted(less, es, k);
    LookupExactly(less, es, k);
    LookupExactly(less, es, q);
    LookupExactly(less, t, q);
    LowerIndexSplits(less, es, k);
    if Has(less, es, k) {
      forall j | 0 <= j < |t|
        ensures t[j] == es[if j < i then j else j + 1]
      {}
      if !Same(less, k, q) && Has(less, es, q) {
        var j :| 0 <= j < |es| && Same(less, es[j].0, q);
        assert j != i;
        assert t[if j < i then j else j - 1] == es[j];
      }
    }
  }

  lemma LookupAssigned<K(!new), V>(less: (K, K) -> bool, es: seq<Entry<K, V>>, k: K, v: V, q: K)
    requires StrictWeakOrder(less) && Sorted(less, es)
    ensures Lookup(less, Assigned(less, es, k, v), q) == if Same(less, k, q) then Some(v) else Lookup(less, es, q)
  {
    var i, t := LowerIndex(less, es, k), Assigned(less, es, k, v);
    InsertedSorted(less, es, k, v);
    if !Has(less, es, k) {
      LookupSpliced(less, es, i, k, v, q);
    } else {
      LookupExactly(less, es, k);
      LookupExactly(less, es, q);
      LookupExactly(less, t, q);
      assert Same(less, t[i].0, k);
      forall j | 0 <= j < |t|
        ensures t[j].0 == es[j].0 && (j != i ==> t[j] == es[j])
      {}
    }
  }
}

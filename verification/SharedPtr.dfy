/** Reference-counted handles: who owns what, over any run of construct, copy, assign and destroy. */
module SharedPtr {
  import opened Counting
  import opened OrderedMap

  // What a handle manages.
  class Object {
    constructor () {}
  }

  // The heap cell that counts the handles on one object.
  class Counter {
    var value: int

    constructor (value: int)
      ensures this.value == value
    {
      this.value := value;
    }
  }

  class Handle {
    var ptr: Object?
    var count: Counter?

    constructor ()
      ensures ptr == null && count == null
    {
      ptr, count := null, null;
    }
  }

  // The handles that share c, when `live` says which counter each live handle holds.
  ghost function Sharing(live: map<Handle, Counter?>, c: Counter): set<Handle> {
    set h | h in live && live[h] == c
  }

  lemma JoinSharing(live: map<Handle, Counter?>, h: Handle, c: Counter?, d: Counter)
    requires h !in live
    ensures Sharing(live[h := c], d) == Sharing(live, d) + (if c == d then {h} else {})
    ensures |Sharing(live[h := c], d)| == |Sharing(live, d)| + (if c == d then 1 else 0)
  {
    assert Sharing(live[h := c], d) == Sharing(live, d) + (if c == d then {h} else {});
  }

  lemma LeaveSharing(live: map<Handle, Counter?>, h: Handle, d: Counter)
    requires h in live
    ensures Sharing(live - {h}, d) == Sharing(live, d) - {h}
    ensures |Sharing(live - {h}, d)| == |Sharing(live, d)| - (if live[h] == d then 1 else 0)
  {
    assert Sharing(live - {h}, d) == Sharing(live, d) - {h};
    assert live[h] != d ==> Sharing(live, d) - {h} == Sharing(live, d);
  }

  // The handles alive at one moment of a run and everything that was ever put under a counter.
  class World {
    ghost var live: map<Handle, Counter?>
    ghost var owners: map<Counter, Object>
    ghost var freedCounters: set<Counter>
    ghost var freedObjects: set<Object>

    // A live handle holds either nothing or a counter that is not freed, with the object it counts for.
    ghost predicate HandleOk(h: Handle)
      requires h in live
      reads this`live, this`owners, this`freedCounters, h
    {
      h.count == live[h] &&
      if h.count == null then h.ptr == null
      else h.count in owners && h.count !in freedCounters && h.ptr == owners[h.count]
    }

    ghost predicate CounterOk(c: Counter)
      reads this`live, c
    {
      c.value == |Sharing(live, c)| > 0
    }

    // An object goes exactly when its counter does, and no two counters count for one object.
    ghost predicate Books()
      reads this`owners, this`freedCounters, this`freedObjects
    {
      && freedCounters <= owners.Keys
      && (forall c :: c in owners ==> (owners[c] in freedObjects <==> c in freedCounters))
      && freedObjects <= owners.Values
      && (forall c, d :: c in owners && d in owners && owners[c] == owners[d] ==> c == d)
    }

    ghost predicate Valid()
      reads this, live.Keys, owners.Keys
    {
      && Books()
      && (forall h {:trigger HandleOk(h)} :: h in live ==> HandleOk(h))
      && (forall c {:trigger CounterOk(c)} :: c in owners && c !in freedCounters ==> CounterOk(c))
    }

    constructor ()
      ensures Valid() && live == map[] && owners == map[]
    {
      live, owners, freedCounters, freedObjects := map[], map[], {}, {};
    }

    // delete of the object and of its counter: each happens at most once.
    ghost method Free(o: Object, c: Counter)
      requires o !in freedObjects && c !in freedCounters
      modifies this`freedObjects, this`freedCounters
      ensures freedObjects == old(freedObjects) + {o} && freedCounters == old(freedCounters) + {c}
    {
      freedObjects, freedCounters := freedObjects + {o}, freedCounters + {c};
    }

    // A handle on a counter that nobody shared before; the counters there were are as they were.
    twostate lemma NewcomerCounter(new h: Handle, new d: Counter)
      requires old(Valid()) && h !in old(live) && live == old(live)[h := h.count]
      requires d in owners && d !in freedCounters && freedCounters == old(freedCounters)
      requires d != h.count ==> d in old(owners) && old(allocated(d)) && unchanged(d)
      requires d == h.count ==> d !in old(owners) && d.value == 1
      ensures CounterOk(d)
    {
      JoinSharing(old(live), h, h.count, d);
      if d == h.count {
        forall x | x in old(live)
          ensures old(live)[x] != d
        {
          assert old(HandleOk(x));
        }
        assert Sharing(old(live), d) == {};
      } else {
        assert old(CounterOk(d));
      }
    }

    // SharedPtr(T* ptr); a raw pointer is wrapped once.
    method Make(ptr: Object?) returns (h: Handle)
      requires Valid() && (ptr != null ==> ptr !in owners.Values)
      modifies this`live, this`owners
      ensures Valid() && fresh(h) && h.ptr == ptr && live == old(live)[h := h.count]
      ensures ptr == null ==> owners == old(owners) && h.count == null
      ensures ptr != null ==> h.count != null && fresh(h.count) && owners == old(owners)[h.count := ptr]
    {
      h := new Handle();
      if ptr != null {
        h.count := new Counter(1);
        h.ptr := ptr;
        owners := owners[h.count := ptr];
      }
      live := live[h := h.count];
      forall d | d in owners && d !in freedCounters
        ensures CounterOk(d)
      {
        NewcomerCounter(h, d);
      }
      forall x | x in live
        ensures HandleOk(x)
      {
        assert x != h ==> old(HandleOk(x));
      }
    }

    // One more handle, h, comes to share what `other` holds.
    method Join(h: Handle, other: Handle)
      requires Valid() && other in live && h !in live
      modifies this`live, h, other.count
      ensures Valid() && live == old(live)[h := other.count] && h.ptr == other.ptr && h.count == other.count
    {
      assert HandleOk(other);
      assert other.count != null ==> CounterOk(other.count);
      h.ptr := other.ptr;
      h.count := other.count;
      if h.count != null {
        h.count.value := h.count.value + 1;
      }
      live := live[h := h.count];
      forall d | d in owners && d !in freedCounters
        ensures CounterOk(d)
      {
        JoinSharing(old(live), h, h.count, d);
        assert old(CounterOk(d));
      }
      forall x | x in live
        ensures HandleOk(x)
      {
        assert x != h ==> old(HandleOk(x));
      }
    }

    // SharedPtr(const SharedPtr& other)
    method Copy(other: Handle) returns (h: Handle)
      requires Valid() && other in live
      modifies this`live, other.count
      ensures Valid() && fresh(h) && live == old(live)[h := other.count] && h.ptr == other.ptr && h.count == other.count
      ensures other.ptr == old(other.ptr) && other.count == old(other.count)
    {
      h := new Handle();
      Join(h, other);
    }

    // The counter of h has lost h, and went with its object if h was the last on it; nothing else changed.
    twostate predicate Released(h: Handle)
      reads this, live.Keys, owners.Keys
    {
      var c := old(h.count);
      && h in old(live) && live == old(live) - {h} && owners == old(owners)
      && (c == null ==> freedCounters == old(freedCounters) && freedObjects == old(freedObjects))
      && (c != null ==>
            && c in owners && c.value == old(c.value) - 1
            && freedCounters == old(freedCounters) + (if c.value == 0 then {c} else {})
            && freedObjects == old(freedObjects) + (if c.value == 0 then {owners[c]} else {}))
      && (forall x :: x in live ==> unchanged(x))
      && (forall d :: d in owners && d != c ==> unchanged(d))
    }

    twostate lemma ReleasedCounter(h: Handle, new d: Counter)
      requires old(Valid()) && Released(h) && d in owners && d !in freedCounters
      ensures CounterOk(d)
    {
      assert old(CounterOk(d)) && old(HandleOk(h));
      LeaveSharing(old(live), h, d);
    }

    twostate lemma ReleasedHandle(h: Handle, new x: Handle)
      requires old(Valid()) && Released(h) && x in live
      ensures HandleOk(x)
    {
      var c := old(h.count);
      assert old(HandleOk(x)) && old(HandleOk(h));
      if c != null && old(live)[x] == c {
        assert old(CounterOk(c));
        LeaveSharing(old(live), h, c);
        assert x in Sharing(live, c);
      }
    }

    twostate lemma ReleasedValid(h: Handle)
      requires old(Valid()) && Released(h)
      ensures Valid()
    {
      assert old(HandleOk(h));
      forall d | d in owners && d !in freedCounters
        ensures CounterOk(d)
      {
        ReleasedCounter(h, d);
      }
      forall x | x in live
        ensures HandleOk(x)
      {
        ReleasedHandle(h, x);
      }
    }

    // Release(): h gives up its share and leaves the live handles; the last one out frees object and counter.
    method Release(h: Handle)
      requires Valid() && h in live
      modifies this`live, this`freedObjects, this`freedCounters, h, h.count
      ensures Valid() && live == old(live) - {h}
    {
      assert HandleOk(h);
      assert h.count != null ==> CounterOk(h.count);
      live := live - {h};
      if h.count != null {
        h.count.value := h.count.value - 1;
        if h.count.value == 0 {
          Free(h.ptr, h.count);
          h.ptr := null;
          h.count := null;
        }
      }
      ReleasedValid(h);
    }

    // operator=, between any two live handles, sharing or not.
    method Assign(h: Handle, other: Handle)
      requires Valid() && h in live && other in live
      modifies this`live, this`freedObjects, this`freedCounters, h, h.count, other.count
      ensures Valid() && live == old(live)[h := old(other.count)] && h.ptr == old(other.ptr)
    {
      assert HandleOk(h);
      if h != other {
        Release(h);
        Join(h, other);
      }
    }

    // ~SharedPtr()
    method Destroy(h: Handle)
      requires Valid() && h in live
      modifies this`live, this`freedObjects, this`freedCounters, h, h.count
      ensures Valid() && live == old(live) - {h}
    {
      Release(h);
    }

    // An object is freed exactly when no live handle is left on its counter.
    lemma FreedIffUnshared(c: Counter)
      requires Valid() && c in owners
      ensures c in freedCounters <==> Sharing(live, c) == {}
      ensures owners[c] in freedObjects <==> Sharing(live, c) == {}
      ensures c !in freedCounters ==> c.value == |Sharing(live, c)|
    {
      if c in freedCounters {
        forall h | h in live
          ensures live[h] != c
        {
          assert HandleOk(h);
        }
      } else {
        assert CounterOk(c);
      }
    }

    // When the last handle is gone nothing has leaked.
    lemma NothingLeaks()
      requires Valid() && live == map[]
      ensures freedCounters == owners.Keys && freedObjects == owners.Values
    {
      forall c | c in owners
        ensures c in freedCounters && owners[c] in freedObjects
      {
        FreedIffUnshared(c);
      }
    }
  }

  // ---------- whole runs ----------

  // Handles are named by their index among those alive; an index out of range is skipped.
  datatype Action = Wrap | Null | Copy(i: nat) | Assign(i: nat, j: nat) | Destroy(i: nat)

  // What a run amounts to: which of the objects wrapped so far, if any, each live handle manages.
  datatype Ledger = Ledger(refs: seq<Option<nat>>, wrapped: nat)

  function Step(m: Ledger, a: Action): Ledger {
    match a
    case Wrap => Ledger(m.refs + [Some(m.wrapped)], m.wrapped + 1)
    case Null => Ledger(m.refs + [None], m.wrapped)
    case Copy(i) => if i < |m.refs| then Ledger(m.refs + [m.refs[i]], m.wrapped) else m
    case Assign(i, j) => if i < |m.refs| && j < |m.refs| then Ledger(m.refs[i := m.refs[j]], m.wrapped) else m
    case Destroy(i) => if i < |m.refs| then Ledger(m.refs[..i] + m.refs[i + 1..], m.wrapped) else m
  }

  function After(actions: seq<Action>): Ledger {
    if actions == [] then Ledger([], 0) else Step(After(actions[..|actions| - 1]), actions[|actions| - 1])
  }

  function Wraps(actions: seq<Action>): nat {
    if actions == [] then 0
    else Wraps(actions[..|actions| - 1]) + (if actions[|actions| - 1].Wrap? then 1 else 0)
  }

  // How many of the first n handles manage object k.
  function Managing(refs: seq<Option<nat>>, n: nat, k: nat): nat
    requires n <= |refs|
  {
    if n == 0 then 0 else Managing(refs, n - 1, k) + (if refs[n - 1] == Some(k) then 1 else 0)
  }

  // The count of the managers of an object is the number of handles that manage it.
  lemma {:induction false} ManagingMeans(refs: seq<Option<nat>>, n: nat, k: nat)
    requires n <= |refs|
    ensures Managing(refs, n, k) == |set i | 0 <= i < n && refs[i] == Some(k)|
  {
    var marks := seq(|refs|, i requires 0 <= i < |refs| => refs[i] == Some(k));
    ManagingTrues(refs, n, k, marks);
    TruesCounted(marks, n);
    assert (set i | 0 <= i < n && refs[i] == Some(k)) == set i | 0 <= i < n && marks[i];
  }

  lemma {:induction false} ManagingTrues(refs: seq<Option<nat>>, n: nat, k: nat, marks: seq<bool>)
    requires n <= |refs| == |marks| && forall i :: 0 <= i < |refs| ==> marks[i] == (refs[i] == Some(k))
    ensures Managing(refs, n, k) == Trues(marks, n)
  {
    if n > 0 {
      ManagingTrues(refs, n - 1, k, marks);
    }
  }

  ghost predicate Lists<T>(all: set<T>, s: seq<T>) {
    && (forall x :: x in s ==> x in all)
    && (forall x :: x in all ==> x in s)
    && (forall i, j :: 0 <= i < j < |s| ==> s[i] != s[j])
  }

  function CounterFor(cs: seq<Counter>, ref: Option<nat>): Counter? {
    if ref.Some? && ref.value < |cs| then cs[ref.value] else null
  }

  // hs lists the live handles and cs the counters, oldest first, and they are related as the ledger says.
  ghost predicate Follows(live: map<Handle, Counter?>, counters: set<Counter>, hs: seq<Handle>, cs: seq<Counter>,
                          m: Ledger) {
    && Lists(live.Keys, hs) && Lists(counters, cs) && |hs| == |m.refs| && |cs| == m.wrapped
    && (forall i :: 0 <= i < |hs| ==> m.refs[i] == None || m.refs[i].value < m.wrapped)
    && (forall i :: 0 <= i < |hs| ==> live[hs[i]] == CounterFor(cs, m.refs[i]))
  }

  lemma FollowsWrap(live: map<Handle, Counter?>, counters: set<Counter>, hs: seq<Handle>, cs: seq<Counter>, m: Ledger,
                    h: Handle, c: Counter)
    requires Follows(live, counters, hs, cs, m) && h !in live && c !in counters
    ensures Follows(live[h := c], counters + {c}, hs + [h], cs + [c], Step(m, Wrap))
  {
    var hs', refs := hs + [h], Step(m, Wrap).refs;
    forall i | 0 <= i < |hs'|
      ensures live[h := c][hs'[i]] == CounterFor(cs + [c], refs[i])
    {
      assert i < |hs| ==> hs'[i] == hs[i] && refs[i] == m.refs[i];
    }
  }

  // A new handle that shares what ref says.
  lemma FollowsOneMore(live: map<Handle, Counter?>, counters: set<Counter>, hs: seq<Handle>, cs: seq<Counter>,
                       m: Ledger, h: Handle, ref: Option<nat>)
    requires Follows(live, counters, hs, cs, m) && h !in live && (ref == None || ref.value < m.wrapped)
    ensures Follows(live[h := CounterFor(cs, ref)], counters, hs + [h], cs, Ledger(m.refs + [ref], m.wrapped))
  {}

  lemma FollowsAssign(live: map<Handle, Counter?>, counters: set<Counter>, hs: seq<Handle>, cs: seq<Counter>, m: Ledger,
                      i: nat, j: nat)
    requires Follows(live, counters, hs, cs, m) && i < |hs| && j < |hs|
    ensures Follows(live[hs[i] := live[hs[j]]], counters, hs, cs, Step(m, Assign(i, j)))
  {}

  lemma FollowsDestroy(live: map<Handle, Counter?>, counters: set<Counter>, hs: seq<Handle>, cs: seq<Counter>,
                       m: Ledger, i: nat)
    requires Follows(live, counters, hs, cs, m) && i < |hs|
    ensures Follows(live - {hs[i]}, counters, hs[..i] + hs[i + 1..], cs, Step(m, Destroy(i)))
  {
    var hs', refs := hs[..i] + hs[i + 1..], Step(m, Destroy(i)).refs;
    forall k | 0 <= k < |hs'|
      ensures hs'[k] == hs[if k < i then k else k + 1] && refs[k] == m.refs[if k < i then k else k + 1]
    {}
    forall x | x in live && x != hs[i]
      ensures x in hs'
    {
      var k :| 0 <= k < |hs| && hs[k] == x;
      assert hs'[if k < i then k else k - 1] == x;
    }
  }

  method WrapNew(w: World, hs: seq<Handle>, ghost cs: seq<Counter>, ghost m: Ledger)
    returns (hs': seq<Handle>, ghost cs': seq<Counter>)
    requires w.Valid() && Follows(w.live, w.owners.Keys, hs, cs, m)
    modifies w`live, w`owners
    ensures w.Valid() && Follows(w.live, w.owners.Keys, hs', cs', Step(m, Wrap))
    ensures old(w.owners.Keys) <= w.owners.Keys && fresh(w.live.Keys - old(w.live.Keys))
    ensures fresh(w.owners.Keys - old(w.owners.Keys))
    ensures |hs'| == |hs| + 1 && hs'[..|hs|] == hs && hs'[|hs|].ptr != null && fresh(hs'[|hs|].ptr)
  {
    var o := new Object();
    var h := w.Make(o);
    FollowsWrap(old(w.live), old(w.owners.Keys), hs, cs, m, h, h.count);
    hs', cs' := hs + [h], cs + [h.count];
  }

  method CopyOne(w: World, hs: seq<Handle>, ghost cs: seq<Counter>, ghost m: Ledger, i: nat) returns (hs': seq<Handle>)
    requires w.Valid() && Follows(w.live, w.owners.Keys, hs, cs, m) && i < |hs|
    modifies w`live, w.owners.Keys
    ensures w.Valid() && Follows(w.live, w.owners.Keys, hs', cs, Step(m, Action.Copy(i)))
    ensures fresh(w.live.Keys - old(w.live.Keys))
    ensures |hs'| == |hs| + 1 && hs'[..|hs|] == hs && hs'[|hs|].ptr == hs[i].ptr == old(hs[i].ptr)
  {
    assert w.HandleOk(hs[i]);
    var h := w.Copy(hs[i]);
    FollowsOneMore(old(w.live), w.owners.Keys, hs, cs, m, h, m.refs[i]);
    hs' := hs + [h];
  }

  // One action on the handles, and what it does to the ledger.
  method Act(w: World, hs: seq<Handle>, ghost cs: seq<Counter>, ghost m: Ledger, a: Action)
    returns (hs': seq<Handle>, ghost cs': seq<Counter>)
    requires w.Valid() && Follows(w.live, w.owners.Keys, hs, cs, m)
    modifies w, w.live.Keys, w.owners.Keys
    ensures w.Valid() && Follows(w.live, w.owners.Keys, hs', cs', Step(m, a))
    ensures old(w.owners.Keys) <= w.owners.Keys && fresh(w.live.Keys - old(w.live.Keys))
    ensures fresh(w.owners.Keys - old(w.owners.Keys))
    ensures a.Wrap? || a.Null? || (a.Copy? && a.i < |hs|) ==> |hs'| == |hs| + 1 && hs'[..|hs|] == hs
    ensures a.Wrap? ==> hs'[|hs|].ptr != null && fresh(hs'[|hs|].ptr)
    ensures a.Null? ==> hs'[|hs|].ptr == null
    ensures a.Copy? && a.i < |hs| ==> hs'[|hs|].ptr == hs[a.i].ptr == old(hs[a.i].ptr)
    ensures a.Assign? ==> hs' == hs && (a.i < |hs| && a.j < |hs| ==> hs[a.i].ptr == old(hs[a.j].ptr))
    ensures a.Destroy? && a.i < |hs| ==> hs' == hs[..a.i] + hs[a.i + 1..]
  {
    hs', cs' := hs, cs;
    match a
    case Wrap =>
      hs', cs' := WrapNew(w, hs, cs, m);
    case Null =>
      var h := w.Make(null);
      FollowsOneMore(old(w.live), w.owners.Keys, hs, cs, m, h, None);
      hs' := hs + [h];
    case Copy(i) =>
      if i < |hs| {
        hs' := CopyOne(w, hs, cs, m, i);
      }
    case Assign(i, j) =>
      if i < |hs| && j < |hs| {
        assert w.HandleOk(hs[i]) && w.HandleOk(hs[j]);
        FollowsAssign(w.live, w.owners.Keys, hs, cs, m, i, j);
        w.Assign(hs[i], hs[j]);
      }
    case Destroy(i) =>
      if i < |hs| {
        assert w.HandleOk(hs[i]);
        FollowsDestroy(w.live, w.owners.Keys, hs, cs, m, i);
        w.Destroy(hs[i]);
        hs' := hs[..i] + hs[i + 1..];
      }
  }

  // ---------- what a run means ----------

  lemma {:induction false} ListsCount<T>(all: set<T>, s: seq<T>)
    requires Lists(all, s)
    ensures |all| == |s|
  {
    if s == [] {
      assert all == {};
    } else {
      var last := s[|s| - 1];
      forall x | x in all - {last}
        ensures x in s[..|s| - 1]
      {
        var k :| 0 <= k < |s| && s[k] == x;
        assert s[..|s| - 1][k] == x;
      }
      ListsCount(all - {last}, s[..|s| - 1]);
    }
  }

  // Those of the first n handles that manage object k.
  ghost function Managers(hs: seq<Handle>, refs: seq<Option<nat>>, n: nat, k: nat): set<Handle>
    requires n <= |hs| == |refs|
  {
    if n == 0 then {} else Managers(hs, refs, n - 1, k) + (if refs[n - 1] == Some(k) then {hs[n - 1]} else {})
  }

  lemma {:induction false} ManagersAre(hs: seq<Handle>, refs: seq<Option<nat>>, n: nat, k: nat, h: Handle)
    requires n <= |hs| == |refs|
    ensures h in Managers(hs, refs, n, k) <==> exists i :: 0 <= i < n && hs[i] == h && refs[i] == Some(k)
  {
    if n > 0 {
      ManagersAre(hs, refs, n - 1, k, h);
    }
  }

  lemma {:induction false} ManagersCount(hs: seq<Handle>, refs: seq<Option<nat>>, n: nat, k: nat)
    requires n <= |hs| == |refs| && forall i, j :: 0 <= i < j < |hs| ==> hs[i] != hs[j]
    ensures |Managers(hs, refs, n, k)| == Managing(refs, n, k)
  {
    if n > 0 {
      ManagersCount(hs, refs, n - 1, k);
      ManagersAre(hs, refs, n - 1, k, hs[n - 1]);
    }
  }

  lemma SharingIsManaging(live: map<Handle, Counter?>, counters: set<Counter>, hs: seq<Handle>, cs: seq<Counter>,
                          m: Ledger, k: nat)
    requires Follows(live, counters, hs, cs, m) && k < |cs|
    ensures |Sharing(live, cs[k])| == Managing(m.refs, |m.refs|, k)
  {
    var managers := Managers(hs, m.refs, |hs|, k);
    forall h | h in live
      ensures h in managers <==> live[h] == cs[k]
    {
      var i :| 0 <= i < |hs| && hs[i] == h;
      ManagersAre(hs, m.refs, |hs|, k, h);
    }
    forall h | h in managers
      ensures h in live
    {
      ManagersAre(hs, m.refs, |hs|, k, h);
    }
    assert Sharing(live, cs[k]) == managers;
    ManagersCount(hs, m.refs, |hs|, k);
  }

  // The k-th object and its counter are freed exactly when the ledger has no handle on the object; until then
  // the counter stands at the number of those handles.
  ghost predicate Kept(w: World, cs: seq<Counter>, m: Ledger, k: nat)
    requires k < |cs| && cs[k] in w.owners
    reads w, cs
  {
    var n := Managing(m.refs, |m.refs|, k);
    && (cs[k] in w.freedCounters <==> n == 0)
    && (w.owners[cs[k]] in w.freedObjects <==> n == 0)
    && (n > 0 ==> cs[k].value == n)
  }

  lemma FollowsKept(w: World, hs: seq<Handle>, cs: seq<Counter>, m: Ledger, k: nat)
    requires w.Valid() && Follows(w.live, w.owners.Keys, hs, cs, m) && k < |cs|
    ensures cs[k] in w.owners && Kept(w, cs, m, k)
  {
    SharingIsManaging(w.live, w.owners.Keys, hs, cs, m, k);
    w.FreedIffUnshared(cs[k]);
  }

  // After any actions whatever, so after every prefix of a run too: the handles are those of the ledger, one
  // counter was made for every wrapped pointer, and each of them is where the ledger says.
  method Run(actions: seq<Action>) returns (w: World, hs: seq<Handle>, ghost cs: seq<Counter>)
    ensures w.Valid() && Follows(w.live, w.owners.Keys, hs, cs, After(actions))
    ensures forall k :: 0 <= k < |cs| ==> cs[k] in w.owners && Kept(w, cs, After(actions), k)
    ensures fresh(w) && fresh(w.live.Keys) && fresh(w.owners.Keys)
  {
    w := new World();
    hs, cs := [], [];
    var n := 0;
    while n < |actions|
      invariant 0 <= n <= |actions| && w.Valid() && Follows(w.live, w.owners.Keys, hs, cs, After(actions[..n]))
      invariant fresh(w) && fresh(w.live.Keys) && fresh(w.owners.Keys)
    {
      assert actions[..n + 1][..n] == actions[..n];
      hs, cs := Act(w, hs, cs, After(actions[..n]), actions[n]);
      n := n + 1;
    }
    assert actions[..n] == actions;
    forall k | 0 <= k < |cs|
      ensures cs[k] in w.owners && Kept(w, cs, After(actions), k)
    {
      FollowsKept(w, hs, cs, After(actions), k);
    }
  }

  lemma {:induction false} WrappedIsWraps(actions: seq<Action>)
    ensures After(actions).wrapped == Wraps(actions)
  {
    if actions != [] {
      WrappedIsWraps(actions[..|actions| - 1]);
    }
  }

  // As many objects were put under a counter as counters were made.
  lemma OwnersCount(w: World, cs: seq<Counter>)
    requires w.Books() && Lists(w.owners.Keys, cs)
    ensures |w.owners.Keys| == |w.owners.Values| == |cs|
  {
    ListsCount(w.owners.Keys, cs);
    var owners := w.owners;
    var os := seq(|cs|, i requires 0 <= i < |cs| && cs[i] in owners => owners[cs[i]]);
    forall o | o in owners.Values
      ensures o in os
    {
      var c :| c in owners && owners[c] == o;
      var k :| 0 <= k < |cs| && cs[k] == c;
      assert os[k] == o;
    }
    ListsCount(owners.Values, os);
  }

  // Any actions whatever and then the destruction of what is left: each wrapping made one object to manage and
  // one counter, and each of these was freed.
  method RunToEnd(actions: seq<Action>) returns (w: World)
    ensures w.Valid() && w.live == map[]
    ensures |w.owners| == Wraps(actions)
    ensures w.freedObjects == w.owners.Values && |w.freedObjects| == Wraps(actions)
    ensures w.freedCounters == w.owners.Keys && |w.freedCounters| == Wraps(actions)
  {
    var hs;
    ghost var cs;
    w, hs, cs := Run(actions);
    ghost var m := After(actions);
    while hs != []
      invariant w.Valid() && Follows(w.live, w.owners.Keys, hs, cs, m) && m.wrapped == After(actions).wrapped
      invariant fresh(w) && fresh(w.live.Keys) && fresh(w.owners.Keys)
      decreases |hs|
    {
      ghost var n := |hs|;
      assert hs[0] in hs && w.HandleOk(hs[0]);
      FollowsDestroy(w.live, w.owners.Keys, hs, cs, m, 0);
      w.Destroy(hs[0]);
      m := Step(m, Destroy(0));
      hs := hs[1..];
      assert hs == [] + hs;
    }
    assert w.live.Keys == {};
    w.NothingLeaks();
    WrappedIsWraps(actions);
    OwnersCount(w, cs);
  }
}

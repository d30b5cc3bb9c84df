/** What whole runs of the callbacks keep of the cache, said of the events alone. */
module SelfDefenseLaws {
  import opened OrderedMap
  import opened SelfDefense
  import opened SelfDefenseThreads

  // ---------- who is in the cache ----------

  // The step puts pid into the cache, unless it is there.
  predicate Stores(s: State, e: Event, pid: Pid) {
    e.Go? && e.t < |s.tasks| && (s.tasks[e.t].CreateStore? || s.tasks[e.t].QueryStore?) && s.tasks[e.t].pid == pid
  }

  lemma AbsentStays(s: State, e: Event, pid: Pid)
    requires Legal(s, e) && pid !in s.cache && !Stores(s, e, pid)
    ensures pid !in Apply(s, e).cache
  {}

  lemma PresentStays(s: State, e: Event, pid: Pid)
    requires Legal(s, e) && pid in s.cache && !Erases(s, e, pid)
    ensures pid in Apply(s, e).cache && Apply(s, e).cache[pid] == s.cache[pid]
  {}

  // Once the termination of pid is carried out, pid is not in the cache until a creation or a query stores it.
  lemma {:induction false} GoneUntilStored(ss: seq<State>, es: seq<Event>, i: nat, j: nat, pid: Pid)
    requires Run(ss, es) && i < j < |ss| && Erases(ss[i], es[i], pid)
    requires forall k {:trigger es[k]} :: i < k < j ==> !Stores(ss[k], es[k], pid)
    ensures pid !in ss[j].cache
    decreases j
  {
    assert StepAt(ss, es, j - 1);
    if i + 1 < j {
      GoneUntilStored(ss, es, i, j - 1, pid);
      AbsentStays(ss[j - 1], es[j - 1], pid);
    }
  }

  // Once stored, pid is in the cache, with the same entry, until its termination is carried out.
  lemma {:induction false} StoredUntilErased(ss: seq<State>, es: seq<Event>, i: nat, j: nat, pid: Pid)
    requires Run(ss, es) && i <= j < |ss| && pid in ss[i].cache && Spared(ss, es, pid, i, j)
    ensures pid in ss[j].cache && ss[j].cache[pid] == ss[i].cache[pid]
    decreases j
  {
    if i < j {
      StoredUntilErased(ss, es, i, j - 1, pid);
      assert StepAt(ss, es, j - 1);
      PresentStays(ss[j - 1], es[j - 1], pid);
    }
  }

  // A creation's store leaves the process in the cache, under its own path if nobody was before it.
  lemma StoreCaches(ss: seq<State>, es: seq<Event>, i: nat, t: Tid)
    requires Run(ss, es) && i < |es| && es[i] == Go(t) && t < |ss[i].tasks| && ss[i].tasks[t].CreateStore?
    ensures var k := ss[i].tasks[t];
            && k.pid in ss[i + 1].cache
            && (k.pid !in ss[i].cache ==> ss[i + 1].cache[k.pid] == Info(k.path, k.flag))
            && (k.pid in ss[i].cache ==> ss[i + 1].cache[k.pid] == ss[i].cache[k.pid])
  {
    assert StepAt(ss, es, i);
  }

  // ---------- a pid nobody asks about ----------

  predicate Asks(k: Task, pid: Pid) {
    match k
    case QueryEnter(q) => q == pid
    case QueryFind(q) => q == pid
    case QueryCheck(q, _, _) => q == pid
    case QueryScan(q, _, _) => q == pid
    case QueryStore(q, _, _, _) => q == pid
    case QueryAnswer(q, _) => q == pid
    case _ => false
  }

  // No query of pid is under way; pid is in the cache only while its process is created and not ended; and
  // nothing got there before its creation.
  predicate Undisturbed(s: State, pid: Pid) {
    && (forall t :: 0 <= t < |s.tasks| ==> !Asks(s.tasks[t], pid))
    && (pid in s.cache ==> Settled(s, pid) && !s.procs[pid].stage.Ended?)
    && (pid in s.procs ==> !s.procs[pid].spoiled)
  }

  lemma UndisturbedStays(s: State, e: Event, pid: Pid)
    requires Inv(s) && Legal(s, e) && Undisturbed(s, pid) && !(e.Query? && e.pid == pid)
    ensures Undisturbed(Apply(s, e), pid)
  {
    if e.Go? {
      assert TaskAt(s, e.t) && !Asks(s.tasks[e.t], pid);
    }
    if e.Spawn? && e.pid == pid && s.mapLock.Some? {
      assert !Asks(s.tasks[s.mapLock.value], pid);
    }
  }

  // In a run in which nobody has asked about pid, pid is in the cache only while its process is created and not
  // ended, so no leftover entry meets the next process with that pid.
  lemma {:induction false} NoLeftovers(ss: seq<State>, es: seq<Event>, i: nat, pid: Pid)
    requires Run(ss, es) && i < |ss|
    requires forall k {:trigger es[k]} :: 0 <= k < i ==> !(es[k].Query? && es[k].pid == pid)
    ensures Undisturbed(ss[i], pid)
    ensures pid in ss[i].cache ==> pid in ss[i].procs && !ss[i].procs[pid].stage.Ended?
    ensures pid in ss[i].procs ==> !ss[i].procs[pid].spoiled
  {
    if i > 0 {
      NoLeftovers(ss, es, i - 1, pid);
      Always(ss, es, i - 1);
      assert StepAt(ss, es, i - 1);
      UndisturbedStays(ss[i - 1], es[i - 1], pid);
    }
  }

  // ---------- every stored process was looked at ----------

  // Where a creation that is ready to store has its readiness from.
  predicate ReadyFrom(s: State, e: Event, t: Tid, pid: Pid)
    requires t < |s.tasks|
  {
    match s.tasks[t]
    case CreateReady(q, _, _) => q == pid
    case CreateStore(q, _, _) => q == pid
    case CreateScan(q, _, path) => e == Go(t) && q == pid && PathProtected(s.dirs, path)
    case CreateFind(q, _, _) => e == Go(t) && q == pid
    case _ => false
  }

  lemma ReadyByOwnStep(s: State, t: Tid)
    requires Ready(s, t) && (Advance(s, t).tasks[t].CreateReady? || Advance(s, t).tasks[t].CreateStore?)
    ensures ReadyFrom(s, Go(t), t, Advance(s, t).tasks[t].pid)
  {}

  lemma OthersKeepTask(s: State, t: Tid, u: Tid)
    requires Ready(s, t) && u < |s.tasks| && u != t
    ensures |Advance(s, t).tasks| == |s.tasks| && Advance(s, t).tasks[u] == s.tasks[u]
  {}

  lemma ReadyComesFrom(s: State, e: Event, t: Tid)
    requires Legal(s, e) && t < |s.tasks| && t < |Apply(s, e).tasks|
    requires Apply(s, e).tasks[t].CreateReady? || Apply(s, e).tasks[t].CreateStore?
    ensures ReadyFrom(s, e, t, Apply(s, e).tasks[t].pid)
  {
    if e.Go? {
      if e.t == t {
        ReadyByOwnStep(s, t);
      } else {
        OthersKeepTask(s, e.t, t);
      }
    }
  }

  // Before a creation is ready to store, it has found its own path protected or looked its parent up.
  lemma {:induction false} LearnedBefore(ss: seq<State>, es: seq<Event>, j: nat, t: Tid)
    returns (find: nat, parent: Pid)
    requires Run(ss, es) && j < |ss| && t < |ss[j].tasks|
    requires ss[j].tasks[t].CreateReady? || ss[j].tasks[t].CreateStore?
    ensures find < j && es[find] == Go(t) && Learns(ss[find], Birth(t, ss[j].tasks[t].pid, parent, find, j))
    ensures forall k :: find < k <= j ==>
              t < |ss[k].tasks| && (ss[k].tasks[t].CreateReady? || ss[k].tasks[t].CreateStore?)
  {
    if j == 0 {
      assert false;
    } else {
      Always(ss, es, j - 1);
      Always(ss, es, j);
      assert StepAt(ss, es, j - 1);
      ReadyComesFrom(ss[j - 1], es[j - 1], t);
      var k := ss[j - 1].tasks[t];
      if k.CreateReady? || k.CreateStore? {
        find, parent := LearnedBefore(ss, es, j - 1, t);
      } else {
        find, parent := j - 1, k.parent;
      }
    }
  }

  // So what is stored of any process is what StoredFlag says: no creation stores without having learned.
  lemma EveryStoreIsBirth(ss: seq<State>, es: seq<Event>, j: nat, t: Tid) returns (b: Birth)
    requires Run(ss, es) && j < |es| && es[j] == Go(t) && t < |ss[j].tasks| && ss[j].tasks[t].CreateStore?
    ensures Born(ss, es, b) && b.store == j && b.t == t && b.pid == ss[j].tasks[t].pid
    ensures CachedFlag(ss[j + 1], b.pid) ==
            if b.pid in ss[j].cache then CachedFlag(ss[j], b.pid)
            else ss[b.find].tasks[t].CreateScan? || CachedFlag(ss[b.find], b.parent)
  {
    var find, parent := LearnedBefore(ss, es, j, t);
    b := Birth(t, ss[j].tasks[t].pid, parent, find, j);
    StoredFlag(ss, es, b);
  }
}

/** The same callbacks interleaved by any number of threads, one lock-to-lock step at a time.

    A thread's task says which callback it runs, how far it has come and what it carries. Next to the cache the
    state keeps what the operating system knows of each process, and three marks that no callback reads:
    - spoiled: when the creation was notified the pid was in the cache already, or a query that had not found it
      there was about to store it;
    - owed: the creation found the parent protected, for a child whose own path is not;
    - heir: in addition the child was stored so, because its pid was not in the cache by then.
 */
module SelfDefenseThreads {
  import opened OrderedMap
  import opened SelfDefense

  type Tid = nat

  datatype Stage = Starting(tid: Tid) | Running | Ending(tid: Tid) | Ended

  datatype Proc = Proc(path: Path, stage: Stage, spoiled: bool, owed: bool, heir: bool)

  datatype Task =
    | Idle
    // ProcessNotifyCallback, creation
    | CreateEnter(pid: Pid, parent: Pid, path: Path)
    | CreateScan(pid: Pid, parent: Pid, path: Path)
    | CreateAsk(pid: Pid, parent: Pid, path: Path)
    | CreateFind(pid: Pid, parent: Pid, path: Path)
    | CreateReady(pid: Pid, path: Path, flag: bool)
    | CreateStore(pid: Pid, path: Path, flag: bool)
    // ProcessNotifyCallback, termination
    | EndEnter(pid: Pid)
    | EndErase(pid: Pid)
    // IsProtectedProcess
    | QueryEnter(pid: Pid)
    | QueryFind(pid: Pid)
    | QueryCheck(pid: Pid, path: Path, found: bool)
    | QueryScan(pid: Pid, path: Path, found: bool)
    | QueryStore(pid: Pid, path: Path, found: bool, flag: bool)
    | QueryAnswer(pid: Pid, flag: bool)

  datatype State = State(
    dirs: seq<Path>,
    procs: map<Pid, Proc>,
    cache: map<Pid, Info>,
    mapLock: Option<Tid>,
    dirLock: Option<Tid>,
    tasks: seq<Task>)

  datatype Event =
    | Spawn(t: Tid, pid: Pid, parent: Pid, path: Path)
    | Exit(t: Tid, pid: Pid)
    | Query(t: Tid, pid: Pid)
    | Go(t: Tid)
    | Reap(pid: Pid)

  predicate HoldsMap(k: Task) {
    k.CreateFind? || k.CreateStore? || k.EndErase? || k.QueryFind? || k.QueryCheck? || k.QueryScan? ||
    k.QueryStore? || k.QueryAnswer?
  }

  predicate HoldsDir(k: Task) {
    k.CreateScan? || k.QueryScan?
  }

  predicate WantsMap(k: Task) {
    k.CreateAsk? || k.CreateReady? || k.EndEnter? || k.QueryEnter?
  }

  predicate WantsDir(k: Task) {
    k.CreateEnter? || k.QueryCheck?
  }

  // GetProcessImageName: the cached path if there is one, else what the system says.
  function ImageName(s: State, pid: Pid): Path {
    if pid in s.cache then s.cache[pid].path
    else if pid in s.procs then s.procs[pid].path
    else ""
  }

  predicate CachedFlag(s: State, pid: Pid) {
    pid in s.cache && s.cache[pid].isProtected
  }

  predicate Ready(s: State, t: Tid) {
    t < |s.tasks| && s.tasks[t] != Idle &&
    (WantsMap(s.tasks[t]) ==> s.mapLock == None) && (WantsDir(s.tasks[t]) ==> s.dirLock == None)
  }

  predicate IdleAt(s: State, t: Tid) {
    t < |s.tasks| && s.tasks[t] == Idle
  }

  // A pid names one process at a time, and a process ends after its creation has been notified.
  predicate Legal(s: State, e: Event) {
    match e
    case Spawn(t, pid, _, _) => IdleAt(s, t) && pid !in s.procs
    case Exit(t, pid) => IdleAt(s, t) && pid in s.procs && s.procs[pid].stage == Running
    case Query(t, _) => IdleAt(s, t)
    case Go(t) => Ready(s, t)
    case Reap(pid) => pid in s.procs && s.procs[pid].stage == Ended
  }

  // A query of pid has looked into the cache, found nothing, and is going to store what it learned.
  predicate InFlight(s: State, pid: Pid) {
    s.mapLock.Some? && s.mapLock.value < |s.tasks| &&
    match s.tasks[s.mapLock.value]
    case QueryCheck(q, _, found) => q == pid && !found
    case QueryScan(q, _, found) => q == pid && !found
    case QueryStore(q, _, found, _) => q == pid && !found
    case _ => false
  }

  function At(s: State, t: Tid, k: Task): State
    requires t < |s.tasks|
  {
    s.(tasks := s.tasks[t := k])
  }

  function Apply(s: State, e: Event): State
    requires Legal(s, e)
  {
    match e
    case Spawn(t, pid, parent, path) =>
      var spoiled := pid in s.cache || InFlight(s, pid);
      var born := s.(procs := s.procs[pid := Proc(path, Starting(t), spoiled, false, false)]);
      At(born, t, CreateEnter(pid, parent, ImageName(born, pid)))
    case Exit(t, pid) =>
      At(s.(procs := s.procs[pid := s.procs[pid].(stage := Ending(t))]), t, EndEnter(pid))
    case Query(t, pid) => At(s, t, QueryEnter(pid))
    case Go(t) => Advance(s, t)
    case Reap(pid) => s.(procs := s.procs - {pid})
  }

  function Advance(s: State, t: Tid): State
    requires Ready(s, t)
  {
    match s.tasks[t]
    case CreateEnter(pid, parent, path) => At(s.(dirLock := Some(t)), t, CreateScan(pid, parent, path))
    case CreateScan(pid, parent, path) =>
      At(s.(dirLock := None), t,
         if PathProtected(s.dirs, path) then CreateReady(pid, path, true) else CreateAsk(pid, parent, path))
    case CreateAsk(pid, parent, path) => At(s.(mapLock := Some(t)), t, CreateFind(pid, parent, path))
    case CreateFind(pid, parent, path) => At(s.(mapLock := None), t, CreateReady(pid, path, CachedFlag(s, parent)))
    case CreateReady(pid, path, flag) => At(s.(mapLock := Some(t)), t, CreateStore(pid, path, flag))
    case CreateStore(pid, path, flag) => At(Stored(s, pid, path, flag).(mapLock := None), t, Idle)
    case EndEnter(pid) => At(s.(mapLock := Some(t)), t, EndErase(pid))
    case EndErase(pid) => At(WithoutEntry(s, pid).(mapLock := None), t, Idle)
    case QueryEnter(pid) => At(s.(mapLock := Some(t)), t, QueryFind(pid))
    case QueryFind(pid) =>
      At(s, t, if CachedFlag(s, pid) then QueryAnswer(pid, true)
               else QueryCheck(pid, ImageName(s, pid), pid in s.cache))
    case QueryCheck(pid, path, found) => At(s.(dirLock := Some(t)), t, QueryScan(pid, path, found))
    case QueryScan(pid, path, found) =>
      At(s.(dirLock := None), t, QueryStore(pid, path, found, PathProtected(s.dirs, path)))
    case QueryStore(pid, path, found, flag) =>
      At(if found then s else s.(cache := WithEntry(s.cache, pid, Info(path, flag))), t, QueryAnswer(pid, flag))
    case QueryAnswer(pid, flag) => At(s.(mapLock := None), t, Idle)
    case Idle => s
  }

  // Map::Insert leaves an entry that is already there.
  function WithEntry(cache: map<Pid, Info>, pid: Pid, info: Info): map<Pid, Info> {
    if pid in cache then cache else cache[pid := info]
  }

  // The Insert of a creation, and what it says about the process for the record.
  function Stored(s: State, pid: Pid, path: Path, flag: bool): State {
    var stored := s.(cache := WithEntry(s.cache, pid, Info(path, flag)));
    if pid !in s.procs then stored
    else
      var owed := flag && !PathProtected(s.dirs, path);
      stored.(procs := s.procs[pid := s.procs[pid].(stage := Running, owed := owed, heir := owed && pid !in s.cache)])
  }

  function WithoutEntry(s: State, pid: Pid): State {
    var erased := s.(cache := s.cache - {pid});
    if pid !in s.procs then erased
    else erased.(procs := s.procs[pid := s.procs[pid].(stage := Ended, owed := false, heir := false)])
  }

  // ---------- the invariant ----------

  predicate Init(s: State) {
    && s.cache == map[] && s.mapLock == None && s.dirLock == None
    && (forall t :: 0 <= t < |s.tasks| ==> s.tasks[t] == Idle)
    && (forall pid :: pid in s.procs ==> s.procs[pid] == Proc(s.procs[pid].path, Running, false, false, false))
  }

  // A mutex is held by exactly the thread whose task says so.
  predicate LocksAt(s: State, t: Tid)
    requires t < |s.tasks|
  {
    && (s.mapLock == Some(t) <==> HoldsMap(s.tasks[t]))
    && (s.dirLock == Some(t) <==> HoldsDir(s.tasks[t]))
  }

  predicate Owned(s: State) {
    (s.mapLock.Some? ==> s.mapLock.value < |s.tasks|) && (s.dirLock.Some? ==> s.dirLock.value < |s.tasks|)
  }

  // The creation of pid has been notified, or it ran before the callbacks were registered.
  predicate Settled(s: State, pid: Pid) {
    pid in s.procs && !s.procs[pid].stage.Starting?
  }

  predicate Unspoiled(s: State, pid: Pid) {
    pid in s.procs && !s.procs[pid].spoiled
  }

  predicate Heir(s: State, pid: Pid) {
    pid in s.procs && s.procs[pid].heir
  }

  predicate Creating(s: State, t: Tid, pid: Pid, path: Path) {
    pid in s.procs && s.procs[pid].stage == Starting(t) && !s.procs[pid].owed && !s.procs[pid].heir &&
    (!s.procs[pid].spoiled ==> path == s.procs[pid].path)
  }

  predicate Querying(s: State, pid: Pid, path: Path, found: bool) {
    && found == (pid in s.cache)
    && (found ==> s.cache[pid] == Info(path, false))
    && (!found && Unspoiled(s, pid) ==> path == s.procs[pid].path)
  }

  predicate TaskAt(s: State, t: Tid)
    requires t < |s.tasks|
  {
    match s.tasks[t]
    case CreateEnter(pid, _, path) => Creating(s, t, pid, path)
    case CreateScan(pid, _, path) => Creating(s, t, pid, path)
    case CreateAsk(pid, _, path) => Creating(s, t, pid, path) && !PathProtected(s.dirs, path)
    case CreateFind(pid, _, path) => Creating(s, t, pid, path) && !PathProtected(s.dirs, path)
    case CreateReady(pid, path, flag) => Creating(s, t, pid, path) && (PathProtected(s.dirs, path) ==> flag)
    case CreateStore(pid, path, flag) => Creating(s, t, pid, path) && (PathProtected(s.dirs, path) ==> flag)
    case EndEnter(pid) => pid in s.procs && s.procs[pid].stage == Ending(t)
    case EndErase(pid) => pid in s.procs && s.procs[pid].stage == Ending(t)
    case QueryCheck(pid, path, found) => Querying(s, pid, path, found)
    case QueryScan(pid, path, found) => Querying(s, pid, path, found)
    case QueryStore(pid, path, found, flag) => Querying(s, pid, path, found) && flag == PathProtected(s.dirs, path)
    case QueryAnswer(pid, flag) =>
      pid in s.cache && flag == (s.cache[pid].isProtected || PathProtected(s.dirs, s.cache[pid].path))
    case _ => true
  }

  predicate PidAt(s: State, pid: Pid) {
    && (pid in s.cache ==>
          s.cache[pid].isProtected == (PathProtected(s.dirs, s.cache[pid].path) || Heir(s, pid)))
    && (pid in s.cache && Unspoiled(s, pid) ==> s.cache[pid].path == s.procs[pid].path)
    && (Heir(s, pid) ==> pid in s.cache && s.procs[pid].owed)
    && (pid in s.procs && s.procs[pid].owed ==> Settled(s, pid) && !s.procs[pid].stage.Ended?)
    && (Unspoiled(s, pid) && s.procs[pid].owed ==> !PathProtected(s.dirs, s.procs[pid].path))
  }

  ghost predicate Inv(s: State) {
    && Owned(s)
    && (forall t :: 0 <= t < |s.tasks| ==> LocksAt(s, t))
    && (forall t :: 0 <= t < |s.tasks| ==> TaskAt(s, t))
    && (forall pid :: PidAt(s, pid))
  }

  lemma KeepsLocks(s: State, t: Tid, u: Tid)
    requires Inv(s) && Ready(s, t) && u < |s.tasks|
    ensures Owned(Advance(s, t)) && LocksAt(Advance(s, t), u)
  {
    assert LocksAt(s, u) && LocksAt(s, t);
  }

  // The thread that moves.
  lemma KeepsOwnTask(s: State, t: Tid)
    requires Inv(s) && Ready(s, t)
    ensures TaskAt(Advance(s, t), t)
  {
    assert LocksAt(s, t) && TaskAt(s, t);
    if s.tasks[t].QueryFind? {
      assert PidAt(s, s.tasks[t].pid);
    }
    if s.tasks[t].QueryStore? {
      assert PidAt(s, s.tasks[t].pid);
    }
  }

  // Any other thread: while it holds the mutex over the cache, nothing it relies on changes.
  lemma KeepsHolder(s: State, t: Tid, u: Tid)
    requires Inv(s) && Ready(s, t) && u < |s.tasks| && u != t && HoldsMap(s.tasks[u])
    ensures TaskAt(Advance(s, t), u)
  {
    assert LocksAt(s, u) && TaskAt(s, u) && LocksAt(s, t);
  }

  // What is on record of a process changes only by the thread that creates it or ends it.
  lemma RecordKept(s: State, t: Tid, u: Tid, pid: Pid)
    requires Inv(s) && Ready(s, t) && u != t && pid in s.procs
    requires s.procs[pid].stage == Starting(u) || s.procs[pid].stage == Ending(u)
    ensures pid in Advance(s, t).procs && Advance(s, t).procs[pid] == s.procs[pid]
  {
    assert TaskAt(s, t);
  }

  lemma KeepsOutsider(s: State, t: Tid, u: Tid)
    requires Inv(s) && Ready(s, t) && u < |s.tasks| && u != t && !HoldsMap(s.tasks[u])
    ensures TaskAt(Advance(s, t), u)
  {
    assert TaskAt(s, u);
    if !s.tasks[u].Idle? && !s.tasks[u].QueryEnter? {
      RecordKept(s, t, u, s.tasks[u].pid);
    }
  }

  // A callback begins, or a process is reaped.
  lemma KeepsAside(s: State, e: Event, u: Tid)
    requires Inv(s) && Legal(s, e) && !e.Go? && u < |s.tasks|
    ensures LocksAt(Apply(s, e), u) && TaskAt(Apply(s, e), u)
  {
    assert LocksAt(s, u) && TaskAt(s, u);
  }

  predicate Writes(k: Task) {
    k.CreateStore? || k.EndErase? || k.QueryStore?
  }

  lemma ReaderKeeps(s: State, t: Tid)
    requires Ready(s, t) && !Writes(s.tasks[t])
    ensures var s' := Advance(s, t); s'.cache == s.cache && s'.procs == s.procs && s'.dirs == s.dirs
  {}

  lemma WriterKeepsPid(s: State, t: Tid, pid: Pid)
    requires Inv(s) && Ready(s, t) && Writes(s.tasks[t])
    ensures PidAt(Advance(s, t), pid)
  {
    assert PidAt(s, pid) && LocksAt(s, t) && TaskAt(s, t);
  }

  lemma KeepsPid(s: State, t: Tid, pid: Pid)
    requires Inv(s) && Ready(s, t)
    ensures PidAt(Advance(s, t), pid)
  {
    assert PidAt(s, pid);
    if Writes(s.tasks[t]) {
      WriterKeepsPid(s, t, pid);
    } else {
      ReaderKeeps(s, t);
    }
  }

  lemma KeepsPidAside(s: State, e: Event, pid: Pid)
    requires Inv(s) && Legal(s, e) && !e.Go?
    ensures PidAt(Apply(s, e), pid)
  {
    assert PidAt(s, pid);
  }

  lemma AdvanceKeeps(s: State, t: Tid)
    requires Inv(s) && Ready(s, t)
    ensures Inv(Advance(s, t)) && |Advance(s, t).tasks| == |s.tasks|
  {
    var s' := Advance(s, t);
    KeepsLocks(s, t, t);
    forall u | 0 <= u < |s'.tasks|
      ensures LocksAt(s', u) && TaskAt(s', u)
    {
      KeepsLocks(s, t, u);
      if u == t {
        KeepsOwnTask(s, t);
      } else if HoldsMap(s.tasks[u]) {
        KeepsHolder(s, t, u);
      } else {
        KeepsOutsider(s, t, u);
      }
    }
    forall pid
      ensures PidAt(s', pid)
    {
      KeepsPid(s, t, pid);
    }
  }

  // Every step of every thread keeps the invariant.
  lemma StepKeeps(s: State, e: Event)
    requires Inv(s) && Legal(s, e)
    ensures Inv(Apply(s, e)) && |Apply(s, e).tasks| == |s.tasks| && Apply(s, e).dirs == s.dirs
  {
    if e.Go? {
      AdvanceKeeps(s, e.t);
    } else {
      var s' := Apply(s, e);
      forall u | 0 <= u < |s'.tasks|
        ensures LocksAt(s', u) && TaskAt(s', u)
      {
        KeepsAside(s, e, u);
      }
      forall pid
        ensures PidAt(s', pid)
      {
        KeepsPidAside(s, e, pid);
      }
    }
  }

  // ---------- runs ----------

  function Next(s: State, e: Event): Option<State> {
    if Legal(s, e) then Some(Apply(s, e)) else None
  }

  ghost predicate Chain<S(!new), E>(next: (S, E) -> Option<S>, s: S, es: seq<E>, end: S)
    decreases |es|
  {
    if es == [] then s == end
    else next(s, es[0]).Some? && Chain(next, next(s, es[0]).value, es[1..], end)
  }

  lemma {:induction false} ChainThen<S(!new), E>(next: (S, E) -> Option<S>, s: S, es: seq<E>, mid: S, more: seq<E>,
                                       end: S)
    requires Chain(next, s, es, mid) && Chain(next, mid, more, end)
    ensures Chain(next, s, es + more, end)
    decreases |es|
  {
    if es == [] {
      assert es + more == more;
    } else {
      ChainThen(next, next(s, es[0]).value, es[1..], mid, more, end);
      assert (es + more)[1..] == es[1..] + more;
    }
  }

  // The events es take s to end.
  ghost predicate Leads(s: State, es: seq<Event>, end: State) {
    Chain(Next, s, es, end)
  }

  lemma LeadsThen(s: State, es: seq<Event>, mid: State, more: seq<Event>, end: State)
    requires Leads(s, es, mid) && Leads(mid, more, end)
    ensures Leads(s, es + more, end)
  {
    ChainThen(Next, s, es, mid, more, end);
  }

  predicate StepAt(ss: seq<State>, es: seq<Event>, i: nat)
    requires i < |es| && |ss| == |es| + 1
  {
    Legal(ss[i], es[i]) && ss[i + 1] == Apply(ss[i], es[i])
  }

  ghost predicate Run(ss: seq<State>, es: seq<Event>) {
    |ss| == |es| + 1 && Init(ss[0]) && forall i :: 0 <= i < |es| ==> StepAt(ss, es, i)
  }

  lemma {:induction false} Always(ss: seq<State>, es: seq<Event>, i: nat)
    requires Run(ss, es) && i < |ss|
    ensures Inv(ss[i]) && |ss[i].tasks| == |ss[0].tasks| && ss[i].dirs == ss[0].dirs
  {
    if i > 0 {
      Always(ss, es, i - 1);
      assert StepAt(ss, es, i - 1);
      StepKeeps(ss[i - 1], es[i - 1]);
    }
  }

  // Whether pid is to be answered as protected: its image lies in a protected directory, or its parent was
  // protected when it was created.
  predicate DueProtection(s: State, pid: Pid)
    requires pid in s.procs
  {
    s.procs[pid].owed || PathProtected(s.dirs, s.procs[pid].path)
  }

  // When an answer about a process is the right one, for every process, also one still being created. A process
  // that is owed protection must have been stored as heir, or the cached path must happen to be protected; any
  // other process must be cached under a path that is as protected as its image.
  lemma AnswersAreRight(ss: seq<State>, es: seq<Event>, i: nat, t: Tid)
    requires Run(ss, es) && i < |ss| && t < |ss[i].tasks| && ss[i].tasks[t].QueryAnswer?
    ensures ss[i].tasks[t].pid in ss[i].cache
    ensures CachedFlag(ss[i], ss[i].tasks[t].pid) ==> ss[i].tasks[t].flag
    ensures var s, k := ss[i], ss[i].tasks[t];
            k.pid in s.procs ==>
              var cached := PathProtected(s.dirs, s.cache[k.pid].path);
              var image := PathProtected(s.dirs, s.procs[k.pid].path);
              (k.flag == DueProtection(s, k.pid) <==>
               if s.procs[k.pid].owed then s.procs[k.pid].heir || cached else cached == image)
  {
    Always(ss, es, i);
    assert TaskAt(ss[i], t);
    assert PidAt(ss[i], ss[i].tasks[t].pid);
  }

  // About a process whose pid was neither in the cache when its creation was notified nor about to be stored by
  // a query, an answer is right unless the process is owed protection and was not stored as heir.
  lemma UnspoiledAnswers(ss: seq<State>, es: seq<Event>, i: nat, t: Tid)
    requires Run(ss, es) && i < |ss| && t < |ss[i].tasks| && ss[i].tasks[t].QueryAnswer?
    requires Unspoiled(ss[i], ss[i].tasks[t].pid)
    ensures var s, k := ss[i], ss[i].tasks[t];
            && (k.flag == DueProtection(s, k.pid) <==> (s.procs[k.pid].owed ==> s.procs[k.pid].heir))
            && k.flag == (s.procs[k.pid].heir || PathProtected(s.dirs, s.procs[k.pid].path))
  {
    AnswersAreRight(ss, es, i, t);
    Always(ss, es, i);
    assert TaskAt(ss[i], t);
    assert PidAt(ss[i], ss[i].tasks[t].pid);
  }

  predicate Erases(s: State, e: Event, pid: Pid) {
    e.Go? && e.t < |s.tasks| && s.tasks[e.t] == EndErase(pid)
  }

  // No termination of pid is carried out from the i-th step up to the j-th.
  ghost predicate Spared(ss: seq<State>, es: seq<Event>, pid: Pid, i: nat, j: nat)
    requires |ss| == |es| + 1 && j <= |es|
  {
    forall k {:trigger es[k]} :: i <= k < j ==> !Erases(ss[k], es[k], pid)
  }

  lemma FlagStays(s: State, e: Event, pid: Pid)
    requires Legal(s, e) && CachedFlag(s, pid) && !Erases(s, e, pid)
    ensures CachedFlag(Apply(s, e), pid)
  {}

  // Once cached as protected, a process stays so until its own termination is notified.
  lemma {:induction false} StaysProtected(ss: seq<State>, es: seq<Event>, i: nat, j: nat, pid: Pid)
    requires Run(ss, es) && i <= j < |ss| && CachedFlag(ss[i], pid)
    requires Spared(ss, es, pid, i, j)
    ensures CachedFlag(ss[j], pid)
    decreases j
  {
    if i < j {
      StaysProtected(ss, es, i, j - 1, pid);
      assert StepAt(ss, es, j - 1);
      FlagStays(ss[j - 1], es[j - 1], pid);
    }
  }

  // One creation callback of a run. At `find` thread t learns whether the child is to be protected, from the
  // child's own path or else from the parent's entry; at `store` it stores the child.
  datatype Birth = Birth(t: Tid, pid: Pid, parent: Pid, find: nat, store: nat)

  predicate Learns(s: State, b: Birth) {
    b.t < |s.tasks| &&
    match s.tasks[b.t]
    case CreateScan(pid, parent, path) => pid == b.pid && parent == b.parent && PathProtected(s.dirs, path)
    case CreateFind(pid, parent, _) => pid == b.pid && parent == b.parent
    case _ => false
  }

  ghost predicate Born(ss: seq<State>, es: seq<Event>, b: Birth)
    requires Run(ss, es)
  {
    && b.find < b.store < |es| && es[b.find] == Go(b.t) && es[b.store] == Go(b.t) && Learns(ss[b.find], b)
    && (forall k :: b.find < k <= b.store ==> b.t < |ss[k].tasks| && ss[k].tasks[b.t] != Idle)
    && ss[b.store].tasks[b.t].CreateStore?
  }

  lemma ReadyOrStore(s: State, e: Event, t: Tid, pid: Pid, path: Path, flag: bool)
    requires Legal(s, e) && t < |s.tasks|
    requires s.tasks[t] == CreateReady(pid, path, flag) || s.tasks[t] == CreateStore(pid, path, flag)
    ensures var s' := Apply(s, e);
            t < |s'.tasks| &&
            s'.tasks[t] in {Idle, CreateReady(pid, path, flag), CreateStore(pid, path, flag)}
  {}

  // What was learned travels to the store unchanged.
  lemma {:induction false} CarriesFlag(ss: seq<State>, es: seq<Event>, b: Birth, k: nat)
    requires Run(ss, es) && Born(ss, es, b) && b.find < k <= b.store
    ensures b.t < |ss[k].tasks|
    ensures var task, learned := ss[k].tasks[b.t], ss[b.find].tasks[b.t];
            var flag := learned.CreateScan? || CachedFlag(ss[b.find], b.parent);
            task == CreateReady(b.pid, learned.path, flag) || task == CreateStore(b.pid, learned.path, flag)
    decreases k
  {
    if k > b.find + 1 {
      CarriesFlag(ss, es, b, k - 1);
      assert StepAt(ss, es, k - 1);
      var learned := ss[b.find].tasks[b.t];
      ReadyOrStore(ss[k - 1], es[k - 1], b.t, b.pid, learned.path,
                   learned.CreateScan? || CachedFlag(ss[b.find], b.parent));
    } else {
      assert StepAt(ss, es, b.find);
    }
  }

  // What the cache says of a process once its creation is stored: what it said before if the pid was there
  // already, and otherwise whether its path is protected or its parent was cached as protected.
  lemma StoredFlag(ss: seq<State>, es: seq<Event>, b: Birth)
    requires Run(ss, es) && Born(ss, es, b)
    ensures CachedFlag(ss[b.store + 1], b.pid) ==
            if b.pid in ss[b.store].cache then CachedFlag(ss[b.store], b.pid)
            else ss[b.find].tasks[b.t].CreateScan? || CachedFlag(ss[b.find], b.parent)
  {
    CarriesFlag(ss, es, b, b.store);
    assert StepAt(ss, es, b.store);
  }

  // A child is owed protection exactly when its own path is not protected and the parent was found protected, and
  // it becomes heir exactly when in addition its pid is not in the cache by the time it is stored.
  lemma BirthRecord(ss: seq<State>, es: seq<Event>, b: Birth)
    requires Run(ss, es) && Born(ss, es, b)
    ensures b.pid in ss[b.store + 1].procs
    ensures var p := ss[b.store + 1].procs[b.pid];
            && p.owed == (ss[b.find].tasks[b.t].CreateFind? && CachedFlag(ss[b.find], b.parent))
            && p.heir == (p.owed && b.pid !in ss[b.store].cache)
  {
    CarriesFlag(ss, es, b, b.store);
    Always(ss, es, b.find);
    Always(ss, es, b.store);
    assert TaskAt(ss[b.find], b.t) && TaskAt(ss[b.store], b.t);
    assert StepAt(ss, es, b.store);
  }

  // So the child of a protected process becomes protected exactly when its pid is not in the cache by the time
  // it is stored, or is there as protected already.
  lemma ChildOfProtected(ss: seq<State>, es: seq<Event>, b: Birth)
    requires Run(ss, es) && Born(ss, es, b) && CachedFlag(ss[b.find], b.parent)
    ensures CachedFlag(ss[b.store + 1], b.pid) <==> b.pid !in ss[b.store].cache || CachedFlag(ss[b.store], b.pid)
  {
    StoredFlag(ss, es, b);
  }

  // A generation: the parent is stored by `from`, does not end before it is looked up, and the child's pid is
  // not in the cache when the child is stored.
  ghost predicate Generation(ss: seq<State>, es: seq<Event>, parent: Pid, from: nat, b: Birth)
    requires Run(ss, es)
  {
    Born(ss, es, b) && b.parent == parent && from <= b.find && Spared(ss, es, parent, from, b.find) &&
    b.pid !in ss[b.store].cache
  }

  // A line of descent from root: each process creates the next.
  ghost predicate Lineage(ss: seq<State>, es: seq<Event>, root: Pid, from: nat, line: seq<Birth>)
    requires Run(ss, es)
  {
    forall m :: 0 <= m < |line| ==>
      Generation(ss, es, if m == 0 then root else line[m - 1].pid,
                 if m == 0 then from else line[m - 1].store + 1, line[m])
  }

  lemma NextGeneration(ss: seq<State>, es: seq<Event>, parent: Pid, from: nat, b: Birth)
    requires Run(ss, es) && from < |ss| && CachedFlag(ss[from], parent) && Generation(ss, es, parent, from, b)
    ensures b.store + 1 < |ss| && CachedFlag(ss[b.store + 1], b.pid)
  {
    StaysProtected(ss, es, from, b.find, parent);
    ChildOfProtected(ss, es, b);
  }

  lemma {:induction false} LineProtected(ss: seq<State>, es: seq<Event>, root: Pid, from: nat, line: seq<Birth>, m: nat)
    requires Run(ss, es) && from < |ss| && CachedFlag(ss[from], root) && Lineage(ss, es, root, from, line) && m < |line|
    ensures line[m].store + 1 < |ss| && CachedFlag(ss[line[m].store + 1], line[m].pid)
  {
    if m == 0 {
      NextGeneration(ss, es, root, from, line[0]);
    } else {
      LineProtected(ss, es, root, from, line, m - 1);
      NextGeneration(ss, es, line[m - 1].pid, line[m - 1].store + 1, line[m]);
    }
  }

  // Protection reaches every descendant, and lasts until that descendant's own termination.
  lemma DescendantsProtected(ss: seq<State>, es: seq<Event>, root: Pid, from: nat, line: seq<Birth>, m: nat, j: nat)
    requires Run(ss, es) && from < |ss| && CachedFlag(ss[from], root) && Lineage(ss, es, root, from, line) && m < |line|
    requires line[m].store < j < |ss| && Spared(ss, es, line[m].pid, line[m].store + 1, j)
    ensures CachedFlag(ss[j], line[m].pid)
  {
    LineProtected(ss, es, root, from, line, m);
    StaysProtected(ss, es, line[m].store + 1, j, line[m].pid);
  }

  // ---------- when the cache got there first ----------

  lemma OneMore(s: State, es: seq<Event>, mid: State, e: Event)
    requires Leads(s, es, mid) && Legal(mid, e)
    ensures Leads(s, es + [e], Apply(mid, e))
  {
    assert Leads(mid, [e], Apply(mid, e)) by {
      assert [e][1..] == [];
    }
    LeadsThen(s, es, mid, [e], Apply(mid, e));
  }

  // A creation as far as its second wait for the cache, with nothing in between.
  lemma CreateUpToReady(s: State, t: Tid, pid: Pid, parent: Pid, path: Path) returns (es: seq<Event>, end: State)
    requires IdleAt(s, t) && s.mapLock == None && s.dirLock == None && pid !in s.procs
    requires var name := if pid in s.cache then s.cache[pid].path else path; !PathProtected(s.dirs, name)
    ensures var name := if pid in s.cache then s.cache[pid].path else path;
            end == At(s.(procs := s.procs[pid := Proc(path, Starting(t), pid in s.cache, false, false)]), t,
                      CreateReady(pid, name, CachedFlag(s, parent)))
    ensures Leads(s, es, end)
  {
    es, end := [], s;
    OneMore(s, es, end, Spawn(t, pid, parent, path));
    es, end := es + [Spawn(t, pid, parent, path)], Apply(end, Spawn(t, pid, parent, path));
    var n := 0;
    while n < 4
      invariant 0 <= n <= 4 && Leads(s, es, end) && t < |end.tasks|
      invariant end == At(s.(procs := s.procs[pid := Proc(path, Starting(t), pid in s.cache, false, false)],
                             mapLock := end.mapLock, dirLock := end.dirLock), t, end.tasks[t])
      invariant var name := if pid in s.cache then s.cache[pid].path else path;
                if n == 0 then end.mapLock == None && end.dirLock == None &&
                               end.tasks[t] == CreateEnter(pid, parent, name)
                else if n == 1 then end.mapLock == None && end.tasks[t] == CreateScan(pid, parent, name)
                else if n == 2 then end.mapLock == None && end.dirLock == None &&
                                    end.tasks[t] == CreateAsk(pid, parent, name)
                else if n == 3 then end.dirLock == None && end.tasks[t] == CreateFind(pid, parent, name)
                else end.mapLock == None && end.dirLock == None &&
                     end.tasks[t] == CreateReady(pid, name, CachedFlag(s, parent))
    {
      OneMore(s, es, end, Go(t));
      es, end := es + [Go(t)], Apply(end, Go(t));
      n := n + 1;
    }
  }

  // Where an uncached query stands after n of its steps.
  function QueryTask(n: nat, pid: Pid, path: Path, flag: bool): Task {
    if n == 0 then QueryEnter(pid)
    else if n == 1 then QueryFind(pid)
    else if n == 2 then QueryCheck(pid, path, false)
    else if n == 3 then QueryScan(pid, path, false)
    else if n == 4 then QueryStore(pid, path, false, flag)
    else if n == 5 then QueryAnswer(pid, flag)
    else Idle
  }

  function QueryState(s: State, t: Tid, n: nat, pid: Pid, path: Path, flag: bool): State
    requires t < |s.tasks|
  {
    At(s.(cache := if n < 5 then s.cache else s.cache[pid := Info(path, flag)],
          mapLock := if 0 < n < 6 then Some(t) else None,
          dirLock := if n == 3 then Some(t) else None), t, QueryTask(n, pid, path, flag))
  }

  lemma QueryGoes(s: State, t: Tid, n: nat, pid: Pid, path: Path)
    requires t < |s.tasks| && n < 6 && pid !in s.cache && (n == 1 ==> path == ImageName(s, pid))
    ensures var flag := PathProtected(s.dirs, path);
            var here := QueryState(s, t, n, pid, path, flag);
            Ready(here, t) && Advance(here, t) == QueryState(s, t, n + 1, pid, path, flag)
  {
    var flag := PathProtected(s.dirs, path);
    assert s.tasks[t := QueryTask(n, pid, path, flag)][t := QueryTask(n + 1, pid, path, flag)] ==
           s.tasks[t := QueryTask(n + 1, pid, path, flag)];
  }

  // The steps of a query from the n-th up to the m-th, with nothing in between.
  lemma QueryPart(s: State, t: Tid, n: nat, m: nat, pid: Pid, path: Path) returns (es: seq<Event>, end: State)
    requires t < |s.tasks| && n <= m <= 6 && pid !in s.cache && (n <= 1 < m ==> path == ImageName(s, pid))
    ensures var flag := PathProtected(s.dirs, path);
            end == QueryState(s, t, m, pid, path, flag) && Leads(QueryState(s, t, n, pid, path, flag), es, end)
  {
    var flag := PathProtected(s.dirs, path);
    var from, k := QueryState(s, t, n, pid, path, flag), n;
    es, end := [], from;
    while k < m
      invariant n <= k <= m && Leads(from, es, end) && end == QueryState(s, t, k, pid, path, flag)
    {
      QueryGoes(s, t, k, pid, path);
      OneMore(from, es, end, Go(t));
      es, end := es + [Go(t)], Apply(end, Go(t));
      k := k + 1;
    }
  }

  // A query of a pid that is not in the cache, with nothing in between.
  lemma WholeQuery(s: State, t: Tid, pid: Pid) returns (es: seq<Event>, end: State)
    requires IdleAt(s, t) && s.mapLock == None && s.dirLock == None && pid !in s.cache
    ensures Leads(s, es, end)
    ensures var path := ImageName(s, pid);
            end == s.(cache := s.cache[pid := Info(path, PathProtected(s.dirs, path))])
  {
    var path := ImageName(s, pid);
    var flag := PathProtected(s.dirs, path);
    OneMore(s, [], s, Query(t, pid));
    var rest, last := QueryPart(s, t, 0, 6, pid, path);
    LeadsThen(s, [Query(t, pid)], QueryState(s, t, 0, pid, path, flag), rest, last);
    es, end := [Query(t, pid)] + rest, last;
    assert s.tasks[t := Idle] == s.tasks;
  }

  // The last two steps of a creation.
  lemma StoreNow(s: State, t: Tid, pid: Pid, path: Path, flag: bool) returns (es: seq<Event>, end: State)
    requires t < |s.tasks| && s.tasks[t] == CreateReady(pid, path, flag) && s.mapLock == None
    ensures Leads(s, es, end) && end == At(Stored(s, pid, path, flag), t, Idle)
  {
    es, end := [], s;
    OneMore(s, es, end, Go(t));
    es, end := es + [Go(t)], Apply(end, Go(t));
    OneMore(s, es, end, Go(t));
    es, end := es + [Go(t)], Apply(end, Go(t));
    assert end.tasks == s.tasks[t := Idle];
  }

  // A query that slips in before the store robs a child of the protection its parent has.
  lemma InheritanceLost(s: State, t: Tid, u: Tid, pid: Pid, parent: Pid, path: Path)
    returns (es: seq<Event>, end: State)
    requires IdleAt(s, t) && IdleAt(s, u) && t != u && s.mapLock == None && s.dirLock == None
    requires CachedFlag(s, parent) && pid !in s.procs && pid !in s.cache && !PathProtected(s.dirs, path)
    ensures Leads(s, es, end) && IdleAt(end, t) && IdleAt(end, u)
    ensures CachedFlag(end, parent) && Settled(end, pid) && pid in end.cache && !CachedFlag(end, pid)
    ensures Unspoiled(end, pid) && end.procs[pid].owed && !Heir(end, pid)
  {
    var created, s1 := CreateUpToReady(s, t, pid, parent, path);
    var queried, s2 := WholeQuery(s1, u, pid);
    var stored, s3 := StoreNow(s2, t, pid, path, true);
    LeadsThen(s, created, s1, queried, s2);
    LeadsThen(s, created + queried, s2, stored, s3);
    es, end := created + queried + stored, s3;
  }

  // Events that lead on from an initial state are a run.
  lemma {:induction false} LeadsIsSteps(s: State, es: seq<Event>, end: State) returns (ss: seq<State>)
    requires Leads(s, es, end)
    ensures |ss| == |es| + 1 && ss[0] == s && ss[|es|] == end
    ensures forall i :: 0 <= i < |es| ==> StepAt(ss, es, i)
    decreases |es|
  {
    if es == [] {
      ss := [s];
    } else {
      var rest := LeadsIsSteps(Apply(s, es[0]), es[1..], end);
      ss := [s] + rest;
      forall i | 0 <= i < |es|
        ensures StepAt(ss, es, i)
      {
        assert i > 0 ==> StepAt(rest, es[1..], i - 1);
      }
    }
  }

  // Such a run from the start: a process in a protected directory is cached as protected when it is first asked
  // about, and its child is not.
  lemma InheritanceLostInRun() returns (ss: seq<State>, es: seq<Event>)
    ensures Run(ss, es)
    ensures CachedFlag(ss[|es|], 1) && Settled(ss[|es|], 2) && !CachedFlag(ss[|es|], 2)
  {
    var dirs := ["d"];
    var s := State(dirs, map[1 := Proc("d", Running, false, false, false)], map[], None, None, [Idle, Idle]);
    assert "d" in dirs && "d" <= "d" && "d"[0] != "u"[0];
    assert PathProtected(dirs, "d") && !PathProtected(dirs, "u");
    var queried, mid := WholeQuery(s, 0, 1);
    var lost, end := InheritanceLost(mid, 0, 1, 2, 1, "u");
    LeadsThen(s, queried, mid, lost, end);
    es := queried + lost;
    ss := LeadsIsSteps(s, es, end);
  }

  // A query of a pid nobody has leaves an entry without a path; a process that gets this pid later goes
  // unprotected although its image lies in a protected directory.
  lemma StaleEntry(s: State, t: Tid, pid: Pid, parent: Pid, path: Path) returns (es: seq<Event>, end: State)
    requires IdleAt(s, t) && s.mapLock == None && s.dirLock == None
    requires !CachedFlag(s, parent) && pid !in s.procs && pid !in s.cache && PathProtected(s.dirs, path)
    ensures Leads(s, es, end) && IdleAt(end, t)
    ensures Settled(end, pid) && PathProtected(end.dirs, end.procs[pid].path)
    ensures pid in end.cache && !CachedFlag(end, pid) && !PathProtected(end.dirs, end.cache[pid].path)
  {
    var queried, s1 := WholeQuery(s, t, pid);
    var created, s2 := CreateUpToReady(s1, t, pid, parent, path);
    var stored, s3 := StoreNow(s2, t, pid, "", false);
    LeadsThen(s, queried, s1, created, s2);
    LeadsThen(s, queried + created, s2, stored, s3);
    es, end := queried + created + stored, s3;
  }

  // A creation with a protected path from its start to its second wait for the cache.
  lemma ScanToReady(s: State, t: Tid, pid: Pid, parent: Pid, path: Path) returns (es: seq<Event>, end: State)
    requires t < |s.tasks| && s.tasks[t] == CreateEnter(pid, parent, path) && s.dirLock == None
    requires PathProtected(s.dirs, path)
    ensures Leads(s, es, end) && end == At(s, t, CreateReady(pid, path, true))
  {
    es, end := [], s;
    OneMore(s, es, end, Go(t));
    es, end := es + [Go(t)], Apply(end, Go(t));
    OneMore(s, es, end, Go(t));
    es, end := es + [Go(t)], Apply(end, Go(t));
    assert end.tasks == s.tasks[t := CreateReady(pid, path, true)];
  }

  // A creation is notified while a query of its pid, begun when nobody had it, is about to store what it learned.
  lemma SpawnInFlight(s: State, t: Tid, u: Tid, pid: Pid, parent: Pid, path: Path) returns (mid: State)
    requires IdleAt(s, t) && IdleAt(s, u) && t != u && pid !in s.procs && pid !in s.cache
    ensures var spawned := At(s.(procs := s.procs[pid := Proc(path, Starting(t), true, false, false)]), t,
                              CreateEnter(pid, parent, path));
            var here := QueryState(s, u, 2, pid, "", false);
            && mid == QueryState(spawned, u, 2, pid, "", false)
            && Legal(here, Spawn(t, pid, parent, path)) && Apply(here, Spawn(t, pid, parent, path)) == mid
  {
    var spawned := At(s.(procs := s.procs[pid := Proc(path, Starting(t), true, false, false)]), t,
                      CreateEnter(pid, parent, path));
    mid := QueryState(spawned, u, 2, pid, "", false);
    var task, entered := QueryCheck(pid, "", false), CreateEnter(pid, parent, path);
    assert s.tasks[u := task][t := entered] == s.tasks[t := entered][u := task];
  }

  // A query that was looking at the pid before its creation was notified does the same harm as one that was over
  // by then, although the pid was not in the cache at the notification.
  lemma StaleQuery(s: State, t: Tid, u: Tid, pid: Pid, parent: Pid, path: Path) returns (es: seq<Event>, end: State)
    requires IdleAt(s, t) && IdleAt(s, u) && t != u && s.mapLock == None && s.dirLock == None
    requires pid !in s.procs && pid !in s.cache && PathProtected(s.dirs, path)
    ensures Leads(s, es, end) && IdleAt(end, t) && IdleAt(end, u) && end.mapLock == None && end.dirLock == None
    ensures Settled(end, pid) && PathProtected(end.dirs, end.procs[pid].path)
    ensures pid in end.cache && !CachedFlag(end, pid) && !PathProtected(end.dirs, end.cache[pid].path)
  {
    OneMore(s, [], s, Query(u, pid));
    var looked, s1 := QueryPart(s, u, 0, 2, pid, "");
    LeadsThen(s, [Query(u, pid)], QueryState(s, u, 0, pid, "", false), looked, s1);
    var before := [Query(u, pid)] + looked;
    var s2 := SpawnInFlight(s, t, u, pid, parent, path);
    OneMore(s, before, s1, Spawn(t, pid, parent, path));
    var spawned := At(s.(procs := s.procs[pid := Proc(path, Starting(t), true, false, false)]), t,
                      CreateEnter(pid, parent, path));
    var stored, s3 := QueryPart(spawned, u, 2, 6, pid, "");
    var scanned, s4 := ScanToReady(s3, t, pid, parent, path);
    var last, s5 := StoreNow(s4, t, pid, path, true);
    var through := before + [Spawn(t, pid, parent, path)];
    LeadsThen(s, through, s2, stored, s3);
    LeadsThen(s, through + stored, s3, scanned, s4);
    LeadsThen(s, through + stored + scanned, s4, last, s5);
    es, end := through + stored + scanned + last, s5;
  }

  // A query of a pid cached as unprotected, up to its answer.
  lemma CachedQuery(s: State, t: Tid, pid: Pid) returns (es: seq<Event>, end: State)
    requires IdleAt(s, t) && s.mapLock == None && s.dirLock == None && pid in s.cache && !s.cache[pid].isProtected
    ensures var flag := PathProtected(s.dirs, s.cache[pid].path);
            Leads(s, es, end) && end == At(s.(mapLock := Some(t)), t, QueryAnswer(pid, flag))
  {
    var path := s.cache[pid].path;
    var flag := PathProtected(s.dirs, path);
    var tasks := [QueryEnter(pid), QueryFind(pid), QueryCheck(pid, path, true), QueryScan(pid, path, true),
                  QueryStore(pid, path, true, flag), QueryAnswer(pid, flag)];
    OneMore(s, [], s, Query(t, pid));
    es, end := [Query(t, pid)], Apply(s, Query(t, pid));
    var n := 0;
    while n < 5
      invariant 0 <= n <= 5 && Leads(s, es, end)
      invariant end == At(s.(mapLock := if n > 0 then Some(t) else None,
                             dirLock := if n == 3 then Some(t) else None), t, tasks[n])
    {
      assert s.tasks[t := tasks[n]][t := tasks[n + 1]] == s.tasks[t := tasks[n + 1]];
      OneMore(s, es, end, Go(t));
      es, end := es + [Go(t)], Apply(end, Go(t));
      n := n + 1;
    }
  }

  // Such a run from the start, up to the wrong answer.
  lemma StaleQueryInRun() returns (ss: seq<State>, es: seq<Event>)
    ensures Run(ss, es)
    ensures 0 < |ss[|es|].tasks| && ss[|es|].tasks[0] == QueryAnswer(2, false)
    ensures Settled(ss[|es|], 2) && DueProtection(ss[|es|], 2)
  {
    var dirs := ["d"];
    var s := State(dirs, map[], map[], None, None, [Idle, Idle]);
    assert "d" in dirs && "d" <= "d";
    var lost, mid := StaleQuery(s, 0, 1, 2, 1, "d");
    var asked, end := CachedQuery(mid, 0, 2);
    LeadsThen(s, lost, mid, asked, end);
    es := lost + asked;
    ss := LeadsIsSteps(s, es, end);
  }

  // ---------- locks ----------

  // Nobody who holds the directory mutex waits for anything, and no idle thread holds either mutex; so the mutex
  // over the cache is always the first of the two, and every path gives back what it took.
  lemma LockOrder(ss: seq<State>, es: seq<Event>, i: nat, t: Tid)
    requires Run(ss, es) && i < |ss| && t < |ss[i].tasks|
    ensures ss[i].dirLock == Some(t) ==> !WantsMap(ss[i].tasks[t]) && !WantsDir(ss[i].tasks[t])
    ensures WantsMap(ss[i].tasks[t]) || ss[i].tasks[t] == Idle ==> ss[i].mapLock != Some(t) && ss[i].dirLock != Some(t)
  {
    Always(ss, es, i);
    assert LocksAt(ss[i], t);
  }

  // Whenever some callback is under way, some thread can take its next step.
  lemma NoDeadlock(s: State, t: Tid) returns (u: Tid)
    requires Inv(s) && t < |s.tasks| && s.tasks[t] != Idle
    ensures Ready(s, u)
  {
    if s.dirLock.Some? {
      u := s.dirLock.value;
    } else if s.mapLock.Some? {
      u := s.mapLock.value;
    } else {
      u := t;
    }
    assert LocksAt(s, u);
  }

  // How many steps a task still has to take, at most.
  function Rank(k: Task): nat {
    match k
    case Idle => 0
    case CreateEnter(_, _, _) => 6
    case CreateScan(_, _, _) => 5
    case CreateAsk(_, _, _) => 4
    case CreateFind(_, _, _) => 3
    case CreateReady(_, _, _) => 2
    case CreateStore(_, _, _) => 1
    case EndEnter(_) => 2
    case EndErase(_) => 1
    case QueryEnter(_) => 6
    case QueryFind(_) => 5
    case QueryCheck(_, _, _) => 4
    case QueryScan(_, _, _) => 3
    case QueryStore(_, _, _, _) => 2
    case QueryAnswer(_, _) => 1
  }

  function Work(tasks: seq<Task>): nat {
    if tasks == [] then 0 else Rank(tasks[0]) + Work(tasks[1..])
  }

  lemma {:induction false} WorkChanges(tasks: seq<Task>, t: Tid, k: Task)
    requires t < |tasks|
    ensures Work(tasks[t := k]) == Work(tasks) - Rank(tasks[t]) + Rank(k)
    ensures Work(tasks) >= Rank(tasks[t])
  {
    if t == 0 {
      assert tasks[0 := k][1..] == tasks[1..];
    } else {
      assert tasks[t := k][1..] == tasks[1..][t - 1 := k];
      WorkChanges(tasks[1..], t - 1, k);
    }
  }

  lemma AdvanceWorks(s: State, t: Tid)
    requires Ready(s, t)
    ensures Work(Advance(s, t).tasks) < Work(s.tasks)
  {
    var k := Advance(s, t).tasks[t];
    WorkChanges(s.tasks, t, k);
    assert Advance(s, t).tasks == s.tasks[t := k];
  }

  // From every reachable state the callbacks under way can all be finished, in at most Work steps.
  lemma {:induction false} AllCanFinish(s: State) returns (es: seq<Event>, end: State)
    requires Inv(s)
    ensures Leads(s, es, end) && |es| <= Work(s.tasks) && forall e :: e in es ==> e.Go?
    ensures Inv(end) && end.mapLock == None && end.dirLock == None &&
            forall t :: 0 <= t < |end.tasks| ==> end.tasks[t] == Idle
    decreases Work(s.tasks)
  {
    if t :| 0 <= t < |s.tasks| && s.tasks[t] != Idle {
      var u := NoDeadlock(s, t);
      AdvanceKeeps(s, u);
      AdvanceWorks(s, u);
      var rest, last := AllCanFinish(Advance(s, u));
      es, end := [Go(u)] + rest, last;
    } else {
      es, end := [], s;
      forall t | 0 <= t < |s.tasks|
        ensures s.mapLock != Some(t) && s.dirLock != Some(t)
      {
        assert LocksAt(s, t);
      }
    }
  }
}

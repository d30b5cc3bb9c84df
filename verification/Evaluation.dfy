/** The batch evaluation of file events: which files each process is charged with, which files are scanned on
    whose behalf, and which processes are reported.

    Paths are known by their hashes. What the file system and TrID answer is given with the input.
 */
module Evaluation {
  import opened OrderedMap

  type Pid = nat
  type Hash = nat

  const WRITE_FLAG: bv64 := 0x10
  const RENAME_FLAG: bv64 := 0x04
  const MIN_TOTAL_SIZE_CHECK := 0
  const MIN_FILE_COUNT := 10
  const MIN_DIR_COUNT := 2
  const FILE_MAX_TOTAL_SIZE_SCAN := 10 * 1024 * 1024 * 5
  const TWO64 := 0x1_0000_0000_0000_0000

  // One file event, with what the file system says when it is looked at: whether the file exists and is an
  // executable, its size (a signed 64-bit quantity), and the hash of the path handed to TrID, which is None
  // when the file had to be copied and could not be.
  datatype FileIo = FileIo(pid: Pid, hash: Hash, dir: Hash, flags: bv64,
                           isThere: bool, isExecutable: bool, size: nat, tmp: Option<Hash>)

  datatype FileCount = FileCount(fileCount: nat, totalSize: nat, dirs: set<Hash>)

  datatype FileInfo = FileInfo(event: nat, tmp: Hash, pid: Pid)

  predicate Sized(es: seq<FileIo>) {
    forall e :: e in es ==> e.size < 0x8000_0000_0000_0000
  }

  predicate Changes(e: FileIo) {
    e.flags & WRITE_FLAG != 0 || e.flags & RENAME_FLAG != 0
  }

  function Add64(a: nat, b: nat): nat {
    (a + b) % TWO64
  }

  // ---------- what pass one is to compute ----------

  predicate Present(e: FileIo) {
    e.isThere && !e.isExecutable
  }

  // Event i is the first on its path that finds a file there.
  predicate First(es: seq<FileIo>, i: nat)
    requires i < |es|
  {
    Present(es[i]) && forall j :: 0 <= j < i ==> !(Present(es[j]) && es[j].hash == es[i].hash)
  }

  // Event i charges its process with a file. Later events on the path never do.
  predicate Charges(es: seq<FileIo>, i: nat)
    requires i < |es|
  {
    First(es, i) && es[i].size != 0 && Changes(es[i])
  }

  // Which of the events charge somebody.
  function Charging(es: seq<FileIo>): (cs: seq<bool>)
    ensures |cs| == |es| && forall i :: 0 <= i < |es| ==> cs[i] == Charges(es, i)
  {
    seq(|es|, i requires 0 <= i < |es| => Charges(es, i))
  }

  predicate Billed(es: seq<FileIo>, cs: seq<bool>, n: nat) {
    |cs| == |es| && n <= |es|
  }

  // Over the first n events: how many files p is charged with, the directories they are in and the bytes in
  // them, and the paths charged to anybody.
  function Files(es: seq<FileIo>, cs: seq<bool>, n: nat, p: Pid): nat
    requires Billed(es, cs, n)
  {
    if n == 0 then 0 else Files(es, cs, n - 1, p) + (if cs[n - 1] && es[n - 1].pid == p then 1 else 0)
  }

  function Dirs(es: seq<FileIo>, cs: seq<bool>, n: nat, p: Pid): set<Hash>
    requires Billed(es, cs, n)
  {
    if n == 0 then {} else Dirs(es, cs, n - 1, p) + (if cs[n - 1] && es[n - 1].pid == p then {es[n - 1].dir} else {})
  }

  function Bytes(es: seq<FileIo>, cs: seq<bool>, n: nat, p: Pid): nat
    requires Billed(es, cs, n)
  {
    if n == 0 then 0 else Bytes(es, cs, n - 1, p) + (if cs[n - 1] && es[n - 1].pid == p then es[n - 1].size else 0)
  }

  function Paths(es: seq<FileIo>, cs: seq<bool>, n: nat): set<Hash>
    requires Billed(es, cs, n)
  {
    if n == 0 then {} else Paths(es, cs, n - 1) + (if cs[n - 1] then {es[n - 1].hash} else {})
  }

  predicate CountOk(es: seq<FileIo>, cs: seq<bool>, n: nat, p: Pid, c: FileCount)
    requires Billed(es, cs, n)
  {
    c.fileCount == Files(es, cs, n, p) && c.totalSize == Bytes(es, cs, n, p) % TWO64 && c.dirs == Dirs(es, cs, n, p)
  }

  ghost predicate CountsKnown(es: seq<FileIo>, cs: seq<bool>, n: nat, counts: map<Pid, FileCount>)
    requires Billed(es, cs, n)
  {
    && (forall i :: 0 <= i < n ==> es[i].pid in counts)
    && (forall p :: p in counts ==> exists i :: 0 <= i < n && es[i].pid == p)
    && (forall p :: p in counts ==> CountOk(es, cs, n, p, counts[p]))
  }

  ghost predicate SizesKnown(es: seq<FileIo>, n: nat, sizes: map<Hash, nat>)
    requires n <= |es|
  {
    && (forall h :: h in sizes ==> exists i :: 0 <= i < n && First(es, i) && es[i].hash == h)
    && (forall i :: 0 <= i < n && Present(es[i]) ==> es[i].hash in sizes)
    && (forall i :: 0 <= i < n && First(es, i) ==> es[i].hash in sizes && sizes[es[i].hash] == es[i].size)
  }

  // Which of the events are the first on their path.
  function Firsts(es: seq<FileIo>): (fs: seq<bool>)
    ensures |fs| == |es| && forall i :: 0 <= i < |es| ==> fs[i] == First(es, i)
  {
    seq(|es|, i requires 0 <= i < |es| => First(es, i))
  }

  // The size of each path, as the first event on it found it.
  function SizesOf(es: seq<FileIo>, fs: seq<bool>, n: nat): map<Hash, nat>
    requires Billed(es, fs, n)
  {
    if n == 0 then map[]
    else if fs[n - 1] then SizesOf(es, fs, n - 1)[es[n - 1].hash := es[n - 1].size]
    else SizesOf(es, fs, n - 1)
  }

  lemma {:induction false} SizesOfKnown(es: seq<FileIo>, n: nat)
    requires n <= |es|
    ensures SizesKnown(es, n, SizesOf(es, Firsts(es), n))
  {
    if n > 0 {
      SizesOfKnown(es, n - 1);
      SizesStep(es, n - 1, SizesOf(es, Firsts(es), n - 1));
    }
  }

  // What the loop tests on event n is whether the event is the first on its path, and whether it charges.
  lemma Decides(es: seq<FileIo>, n: nat, sizes: map<Hash, nat>)
    requires n < |es| && sizes == SizesOf(es, Firsts(es), n)
    ensures var first := Present(es[n]) && es[n].hash !in sizes;
            first == Firsts(es)[n] && (first && es[n].size != 0 && Changes(es[n])) == Charging(es)[n]
  {
    SizesOfKnown(es, n);
    SizesStep(es, n, sizes);
  }

  lemma NobodyCharged(es: seq<FileIo>, cs: seq<bool>, n: nat, p: Pid)
    requires Billed(es, cs, n) && forall i :: 0 <= i < n ==> es[i].pid != p
    ensures CountOk(es, cs, n, p, FileCount(0, 0, {}))
  {
    if n > 0 {
      NobodyCharged(es, cs, n - 1, p);
    }
  }

  // What an event does to the entry of its own process.
  function Updated(io: FileIo, charges: bool, c: FileCount): FileCount {
    if charges then FileCount(c.fileCount + 1, Add64(c.totalSize, io.size), c.dirs + {io.dir}) else c
  }

  lemma CountStep(es: seq<FileIo>, cs: seq<bool>, n: nat, p: Pid, c: FileCount)
    requires Billed(es, cs, n) && n < |es| && CountOk(es, cs, n, p, c)
    ensures CountOk(es, cs, n + 1, p, if es[n].pid == p then Updated(es[n], cs[n], c) else c)
  {}

  lemma CountsStep(es: seq<FileIo>, cs: seq<bool>, n: nat, counts: map<Pid, FileCount>, c: FileCount)
    requires Billed(es, cs, n) && n < |es| && CountsKnown(es, cs, n, counts) && CountOk(es, cs, n, es[n].pid, c)
    ensures CountsKnown(es, cs, n + 1, counts[es[n].pid := Updated(es[n], cs[n], c)])
  {
    var counts' := counts[es[n].pid := Updated(es[n], cs[n], c)];
    forall p | p in counts'
      ensures CountOk(es, cs, n + 1, p, counts'[p])
      ensures exists i :: 0 <= i < n + 1 && es[i].pid == p
    {
      CountStep(es, cs, n, p, if p == es[n].pid then c else counts[p]);
      if p == es[n].pid {
        assert 0 <= n < n + 1 && es[n].pid == p;
      }
    }
  }

  lemma SizesStep(es: seq<FileIo>, n: nat, sizes: map<Hash, nat>)
    requires n < |es| && SizesKnown(es, n, sizes)
    ensures First(es, n) <==> Present(es[n]) && es[n].hash !in sizes
    ensures SizesKnown(es, n + 1, if First(es, n) then sizes[es[n].hash := es[n].size] else sizes)
  {
    if Present(es[n]) && es[n].hash in sizes {
      var i :| 0 <= i < n && First(es, i) && es[i].hash == es[n].hash;
      assert !First(es, n);
    }
  }

  // What is known after n events.
  ghost predicate After(es: seq<FileIo>, cs: seq<bool>, fs: seq<bool>, n: nat,
                        counts: map<Pid, FileCount>, unique: set<Hash>, sizes: map<Hash, nat>)
    requires Billed(es, cs, n) && Billed(es, fs, n)
  {
    CountsKnown(es, cs, n, counts) && unique == Paths(es, cs, n) && sizes == SizesOf(es, fs, n)
  }

  // The body of the first loop.
  method Charge(io: FileIo, counts0: map<Pid, FileCount>, unique0: set<Hash>, sizes0: map<Hash, nat>)
    returns (counts: map<Pid, FileCount>, unique: set<Hash>, sizes: map<Hash, nat>)
    ensures var first := Present(io) && io.hash !in sizes0;
            sizes == (if first then sizes0[io.hash := io.size] else sizes0)
    ensures var charges := Present(io) && io.hash !in sizes0 && io.size != 0 && Changes(io);
            && unique == unique0 + (if charges then {io.hash} else {})
            && counts == counts0[io.pid := Updated(io, charges, Entry(counts0, io.pid))]
  {
    counts, unique, sizes := counts0, unique0, sizes0;
    if io.pid !in counts {
      counts := counts[io.pid := FileCount(0, 0, {})];
    }
    if !io.isThere || io.isExecutable {
      return;
    }
    if io.hash !in sizes {
      sizes := sizes[io.hash := io.size];
      if io.size == 0 {
        return;
      }
      if io.flags & WRITE_FLAG != 0 || io.flags & RENAME_FLAG != 0 {
        var c := counts[io.pid];
        counts := counts[io.pid := FileCount(c.fileCount + 1, Add64(c.totalSize, io.size), c.dirs + {io.dir})];
        unique := unique + {io.hash};
      }
    }
  }

  function Entry(counts: map<Pid, FileCount>, p: Pid): FileCount {
    if p in counts then counts[p] else FileCount(0, 0, {})
  }

  lemma EntryOk(es: seq<FileIo>, cs: seq<bool>, n: nat, counts: map<Pid, FileCount>)
    requires Billed(es, cs, n) && n < |es| && CountsKnown(es, cs, n, counts)
    ensures CountOk(es, cs, n, es[n].pid, Entry(counts, es[n].pid))
  {
    if es[n].pid !in counts {
      NobodyCharged(es, cs, n, es[n].pid);
    }
  }

  lemma AfterStep(es: seq<FileIo>, cs: seq<bool>, fs: seq<bool>, n: nat,
                  counts: map<Pid, FileCount>, unique: set<Hash>, sizes: map<Hash, nat>)
    requires Billed(es, cs, n) && Billed(es, fs, n) && n < |es| && After(es, cs, fs, n, counts, unique, sizes)
    ensures var io := es[n];
            After(es, cs, fs, n + 1, counts[io.pid := Updated(io, cs[n], Entry(counts, io.pid))],
                  unique + (if cs[n] then {io.hash} else {}), if fs[n] then sizes[io.hash := io.size] else sizes)
  {
    EntryOk(es, cs, n, counts);
    CountsStep(es, cs, n, counts, Entry(counts, es[n].pid));
  }

  // The first loop over the events.
  method PassOne(es: seq<FileIo>)
    returns (counts: map<Pid, FileCount>, unique: set<Hash>, sizes: map<Hash, nat>)
    ensures After(es, Charging(es), Firsts(es), |es|, counts, unique, sizes)
  {
    counts, unique, sizes := map[], {}, map[];
    var n := 0;
    ghost var cs, fs := Charging(es), Firsts(es);
    while n < |es|
      invariant 0 <= n <= |es| && After(es, cs, fs, n, counts, unique, sizes)
    {
      Decides(es, n, sizes);
      AfterStep(es, cs, fs, n, counts, unique, sizes);
      counts, unique, sizes := Charge(es[n], counts, unique, sizes);
      n := n + 1;
    }
  }

  // ---------- conservation ----------

  ghost function SumCounts(counts: map<Pid, FileCount>, ps: set<Pid>): nat
    requires ps <= counts.Keys
  {
    if ps == {} then 0
    else
      var p :| p in ps;
      counts[p].fileCount + SumCounts(counts, ps - {p})
  }

  function FilesOf(es: seq<FileIo>, cs: seq<bool>, n: nat, ps: set<Pid>): nat
    requires Billed(es, cs, n)
  {
    if n == 0 then 0 else FilesOf(es, cs, n - 1, ps) + (if cs[n - 1] && es[n - 1].pid in ps then 1 else 0)
  }

  lemma {:induction false} FilesSplit(es: seq<FileIo>, cs: seq<bool>, n: nat, ps: set<Pid>, p: Pid)
    requires Billed(es, cs, n) && p in ps
    ensures FilesOf(es, cs, n, ps) == FilesOf(es, cs, n, ps - {p}) + Files(es, cs, n, p)
  {
    if n > 0 {
      FilesSplit(es, cs, n - 1, ps, p);
    }
  }

  lemma {:induction false} FilesOfNobody(es: seq<FileIo>, cs: seq<bool>, n: nat)
    requires Billed(es, cs, n)
    ensures FilesOf(es, cs, n, {}) == 0
  {
    if n > 0 {
      FilesOfNobody(es, cs, n - 1);
    }
  }

  lemma {:induction false} SumIsFilesOf(es: seq<FileIo>, cs: seq<bool>, counts: map<Pid, FileCount>, ps: set<Pid>)
    requires Billed(es, cs, |es|) && ps <= counts.Keys
    requires forall p :: p in counts ==> counts[p].fileCount == Files(es, cs, |es|, p)
    ensures SumCounts(counts, ps) == FilesOf(es, cs, |es|, ps)
    decreases |ps|
  {
    if ps == {} {
      FilesOfNobody(es, cs, |es|);
    } else {
      var p :| p in ps && SumCounts(counts, ps) == counts[p].fileCount + SumCounts(counts, ps - {p});
      SumIsFilesOf(es, cs, counts, ps - {p});
      FilesSplit(es, cs, |es|, ps, p);
    }
  }

  lemma {:induction false} PathsBefore(es: seq<FileIo>, cs: seq<bool>, n: nat, h: Hash)
    requires Billed(es, cs, n)
    ensures h in Paths(es, cs, n) <==> exists i :: 0 <= i < n && cs[i] && es[i].hash == h
  {
    if n > 0 {
      PathsBefore(es, cs, n - 1, h);
    }
  }

  ghost predicate ChargesOnce(es: seq<FileIo>, cs: seq<bool>)
    requires |cs| == |es|
  {
    forall i, j :: 0 <= i < j < |es| && cs[i] && cs[j] ==> es[i].hash != es[j].hash
  }

  // No path is charged twice.
  lemma ChargingOnce(es: seq<FileIo>)
    ensures ChargesOnce(es, Charging(es))
  {
    forall i, j | 0 <= i < j < |es| && Charging(es)[i] && Charging(es)[j]
      ensures es[i].hash != es[j].hash
    {
      assert First(es, i) && First(es, j);
    }
  }

  lemma FreshPath(es: seq<FileIo>, cs: seq<bool>, n: nat)
    requires Billed(es, cs, n) && n < |es| && ChargesOnce(es, cs)
    ensures cs[n] ==> es[n].hash !in Paths(es, cs, n)
  {
    PathsBefore(es, cs, n, es[n].hash);
  }

  lemma {:induction false} ChargedOnce(es: seq<FileIo>, cs: seq<bool>, n: nat, ps: set<Pid>)
    requires Billed(es, cs, n) && ChargesOnce(es, cs) && forall i :: 0 <= i < n ==> es[i].pid in ps
    ensures FilesOf(es, cs, n, ps) == |Paths(es, cs, n)|
  {
    if n > 0 {
      ChargedOnce(es, cs, n - 1, ps);
      FreshPath(es, cs, n - 1);
    }
  }

  // After pass one the files charged to all processes together are the distinct changed paths.
  lemma CountsSumToPaths(es: seq<FileIo>, counts: map<Pid, FileCount>)
    requires CountsKnown(es, Charging(es), |es|, counts)
    ensures SumCounts(counts, counts.Keys) == |Paths(es, Charging(es), |es|)|
  {
    SumIsFilesOf(es, Charging(es), counts, counts.Keys);
    ChargingOnce(es);
    ChargedOnce(es, Charging(es), |es|, counts.Keys);
  }

  // ---------- who is skipped ----------

  predicate Busy(files: nat, bytes: nat, dirs: set<Hash>) {
    files >= MIN_FILE_COUNT && bytes >= MIN_TOTAL_SIZE_CHECK && |dirs| >= MIN_DIR_COUNT
  }

  function Cleared(c: FileCount): FileCount {
    FileCount(0, 0, c.dirs)
  }

  // The loop between the passes: processes with too few changed files or directories are skipped, and the
  // counters start again from zero.
  method Filter(counts0: map<Pid, FileCount>) returns (counts: map<Pid, FileCount>, white: set<Pid>)
    ensures counts.Keys == counts0.Keys && forall p :: p in counts ==> counts[p] == Cleared(counts0[p])
    ensures white == set p | p in counts0 && !Busy(counts0[p].fileCount, counts0[p].totalSize, counts0[p].dirs)
  {
    counts, white := counts0, {};
    var todo := counts0.Keys;
    while todo != {}
      invariant todo <= counts0.Keys == counts.Keys
      invariant forall p :: p in counts ==> counts[p] == if p in todo then counts0[p] else Cleared(counts0[p])
      invariant white == set p | p in counts0 && p !in todo &&
                                 !Busy(counts0[p].fileCount, counts0[p].totalSize, counts0[p].dirs)
      decreases todo
    {
      var p :| p in todo;
      var c := counts[p];
      if c.fileCount >= MIN_FILE_COUNT && c.totalSize >= MIN_TOTAL_SIZE_CHECK && |c.dirs| >= MIN_DIR_COUNT {
      } else {
        white := white + {p};
      }
      counts := counts[p := c.(fileCount := 0, totalSize := 0)];
      todo := todo - {p};
    }
  }

  // ---------- what pass two is to queue ----------

  // What pass two starts from.
  datatype Env = Env(es: seq<FileIo>, unique: set<Hash>, white: set<Pid>, sizes: map<Hash, nat>)

  predicate Ready(v: Env) {
    forall h :: h in v.unique ==> h in v.sizes && 0 < v.sizes[h] < 0x8000_0000_0000_0000
  }

  // Event i takes its path: the path is still to be scanned, the process is not skipped, and the file fits into
  // what is left of the budget of the process.
  predicate Takes(v: Env, i: nat)
    requires Ready(v) && i < |v.es|
    decreases i, 1
  {
    var e := v.es[i];
    e.hash in Left(v, i) && e.pid !in v.white && Spent(v, i, e.pid) + v.sizes[e.hash] <= FILE_MAX_TOTAL_SIZE_SCAN
  }

  // The paths nobody took before event n.
  function Left(v: Env, n: nat): (r: set<Hash>)
    requires Ready(v) && n <= |v.es|
    ensures r <= v.unique
    decreases n, 0
  {
    if n == 0 then v.unique
    else if Takes(v, n - 1) then Left(v, n - 1) - {v.es[n - 1].hash} else Left(v, n - 1)
  }

  // The bytes p took before event n.
  function Spent(v: Env, n: nat, p: Pid): nat
    requires Ready(v) && n <= |v.es|
    decreases n, 0
  {
    if n == 0 then 0
    else if Takes(v, n - 1) && v.es[n - 1].pid == p then
      assert v.es[n - 1].hash in v.sizes;
      Spent(v, n - 1, p) + v.sizes[v.es[n - 1].hash]
    else Spent(v, n - 1, p)
  }

  // The files queued for scanning; a path that could not be copied is taken but not queued.
  function Queue(v: Env, n: nat): seq<FileInfo>
    requires Ready(v) && n <= |v.es|
  {
    if n == 0 then []
    else if Takes(v, n - 1) && v.es[n - 1].tmp.Some? then
      Queue(v, n - 1) + [FileInfo(n - 1, v.es[n - 1].tmp.value, v.es[n - 1].pid)]
    else Queue(v, n - 1)
  }

  function QueuedFor(files: seq<FileInfo>, p: Pid): nat {
    if files == [] then 0
    else QueuedFor(files[..|files| - 1], p) + (if files[|files| - 1].pid == p then 1 else 0)
  }

  function QueuedBytes(v: Env, files: seq<FileInfo>, p: Pid): nat
    requires Ready(v) && forall f :: f in files ==> f.event < |v.es| && v.es[f.event].hash in v.sizes
  {
    if files == [] then 0
    else
      var f := files[|files| - 1];
      QueuedBytes(v, files[..|files| - 1], p) + (if f.pid == p then v.sizes[v.es[f.event].hash] else 0)
  }

  // No process takes more than its budget.
  lemma {:induction false} WithinBudget(v: Env, n: nat, p: Pid)
    requires Ready(v) && n <= |v.es|
    ensures Spent(v, n, p) <= 52_428_800
  {
    if n > 0 {
      WithinBudget(v, n - 1, p);
    }
  }

  // A taken path is gone for good.
  lemma {:induction false} TakenIsGone(v: Env, i: nat, n: nat)
    requires Ready(v) && i < n <= |v.es| && Takes(v, i)
    ensures v.es[i].hash !in Left(v, n)
  {
    if i + 1 < n {
      TakenIsGone(v, i, n - 1);
    }
  }

  // Each path is taken at most once.
  lemma TakenOnce(v: Env, i: nat, j: nat)
    requires Ready(v) && i < j < |v.es| && Takes(v, i) && Takes(v, j)
    ensures v.es[i].hash != v.es[j].hash
  {
    TakenIsGone(v, i, j);
  }

  lemma {:induction false} LeftShrinks(v: Env, i: nat, n: nat)
    requires Ready(v) && i <= n <= |v.es|
    ensures Left(v, n) <= Left(v, i)
    decreases n
  {
    if i < n {
      LeftShrinks(v, i, n - 1);
    }
  }

  // A path is left over only if every process that touched it is skipped or had no budget left for it.
  lemma LeftOver(v: Env, i: nat)
    requires Ready(v) && i < |v.es| && v.es[i].hash in Left(v, |v.es|)
    ensures v.es[i].hash in v.sizes
    ensures v.es[i].pid in v.white || Spent(v, i, v.es[i].pid) + v.sizes[v.es[i].hash] > 52_428_800
  {
    LeftShrinks(v, i, |v.es|);
    if Takes(v, i) {
      TakenIsGone(v, i, |v.es|);
    }
  }

  // Everything queued was taken, by a process that is not skipped, in the order of the events.
  lemma {:induction false} QueueTaken(v: Env, n: nat)
    requires Ready(v) && n <= |v.es|
    ensures forall f :: f in Queue(v, n) ==>
              f.event < n && Takes(v, f.event) && f.pid == v.es[f.event].pid && v.es[f.event].tmp == Some(f.tmp)
    ensures forall i, j :: 0 <= i < j < |Queue(v, n)| ==> Queue(v, n)[i].event < Queue(v, n)[j].event
  {
    if n > 0 {
      QueueTaken(v, n - 1);
    }
  }

  // No path is queued twice, and none for a skipped process.
  lemma QueuedOnce(v: Env, i: nat, j: nat)
    requires Ready(v)
    requires i < j < |Queue(v, |v.es|)|
    ensures var q := Queue(v, |v.es|);
            && q[i].event < |v.es| && q[j].event < |v.es|
            && v.es[q[i].event].hash != v.es[q[j].event].hash
            && q[i].pid !in v.white && q[j].pid !in v.white
  {
    var q := Queue(v, |v.es|);
    QueueTaken(v, |v.es|);
    assert q[i] in q && q[j] in q;
    TakenOnce(v, q[i].event, q[j].event);
  }

  lemma QueueSized(v: Env, n: nat)
    requires Ready(v) && n <= |v.es|
    ensures forall f :: f in Queue(v, n) ==> f.event < |v.es| && v.es[f.event].hash in v.sizes
  {
    QueueTaken(v, n);
  }

  // What is queued for a process is part of what it spent.
  lemma {:induction false} QueuedIsSpent(v: Env, n: nat, p: Pid)
    requires Ready(v) && n <= |v.es|
    ensures forall f :: f in Queue(v, n) ==> f.event < |v.es| && v.es[f.event].hash in v.sizes
    ensures QueuedBytes(v, Queue(v, n), p) <= Spent(v, n, p)
  {
    QueueSized(v, n);
    if n > 0 {
      QueuedIsSpent(v, n - 1, p);
      var q, before := Queue(v, n), Queue(v, n - 1);
      if |q| > |before| {
        assert q[..|q| - 1] == before;
      }
    }
  }

  // What is queued for a process stays within its budget.
  lemma QueuedWithinBudget(v: Env, n: nat, p: Pid)
    requires Ready(v) && n <= |v.es|
    ensures forall f :: f in Queue(v, n) ==> f.event < |v.es| && v.es[f.event].hash in v.sizes
    ensures QueuedBytes(v, Queue(v, n), p) <= Spent(v, n, p) <= 52_428_800
  {
    QueuedIsSpent(v, n, p);
    WithinBudget(v, n, p);
  }

  // ---------- pass two ----------

  predicate Running(v: Env, n: nat, left: set<Hash>, counts: map<Pid, FileCount>, files: seq<FileInfo>)
    requires Ready(v) && n <= |v.es|
  {
    && left == Left(v, n) && files == Queue(v, n)
    && (forall i :: 0 <= i < |v.es| ==> v.es[i].pid in counts)
    && (forall p :: p in counts ==> counts[p].totalSize == Spent(v, n, p) && counts[p].fileCount == QueuedFor(files, p))
  }

  lemma RunningStep(v: Env, n: nat, left: set<Hash>, counts: map<Pid, FileCount>, files: seq<FileInfo>)
    requires Ready(v) && n < |v.es| && Running(v, n, left, counts, files)
    ensures var e := v.es[n];
            && Takes(v, n) == (e.hash in left && e.pid !in v.white &&
                               Add64(counts[e.pid].totalSize, v.sizes[e.hash]) <= FILE_MAX_TOTAL_SIZE_SCAN)
            && (!Takes(v, n) ==> Running(v, n + 1, left, counts, files))
    ensures var e := v.es[n];
            Takes(v, n) ==>
              var c := counts[e.pid];
              var spent := Add64(c.totalSize, v.sizes[e.hash]);
              if e.tmp.Some? then
                Running(v, n + 1, left - {e.hash}, counts[e.pid := FileCount(c.fileCount + 1, spent, c.dirs)],
                        files + [FileInfo(n, e.tmp.value, e.pid)])
              else Running(v, n + 1, left - {e.hash}, counts[e.pid := FileCount(c.fileCount, spent, c.dirs)], files)
  {
    var e := v.es[n];
    WithinBudget(v, n, e.pid);
    if Takes(v, n) {
      assert Add64(counts[e.pid].totalSize, v.sizes[e.hash]) == Spent(v, n + 1, e.pid);
      if e.tmp.Some? {
        assert (files + [FileInfo(n, e.tmp.value, e.pid)])[..|files|] == files;
      }
    }
  }

  // The second loop over the events, as released builds run it.
  method PassTwo(v: Env, counts0: map<Pid, FileCount>)
    returns (left: set<Hash>, counts: map<Pid, FileCount>, files: seq<FileInfo>, paths: seq<Hash>)
    requires Ready(v) && Running(v, 0, v.unique, counts0, [])
    ensures Running(v, |v.es|, left, counts, files)
    ensures |paths| == |files| && forall i :: 0 <= i < |paths| ==> paths[i] == files[i].tmp
  {
    left, counts, files, paths := v.unique, counts0, [], [];
    var n := 0;
    while n < |v.es|
      invariant 0 <= n <= |v.es| && Running(v, n, left, counts, files)
      invariant |paths| == |files| && forall i :: 0 <= i < |paths| ==> paths[i] == files[i].tmp
    {
      RunningStep(v, n, left, counts, files);
      var io := v.es[n];
      n := n + 1;
      if io.hash !in left {
        continue;
      }
      if io.pid in v.white {
        continue;
      }
      var size := v.sizes[io.hash];
      if Add64(counts[io.pid].totalSize, size) > FILE_MAX_TOTAL_SIZE_SCAN {
        continue;
      }
      var c := counts[io.pid];
      counts := counts[io.pid := FileCount(c.fileCount, Add64(c.totalSize, size), c.dirs)];
      left := left - {io.hash};
      if size != 0 {
        if io.tmp == None {
          continue;
        }
        c := counts[io.pid];
        counts := counts[io.pid := FileCount(c.fileCount + 1, c.totalSize, c.dirs)];
        files := files + [FileInfo(n - 1, io.tmp.value, io.pid)];
        paths := paths + [io.tmp.value];
      }
    }
  }

  // ---------- the tallies ----------

  // What CheckTrID returns: a path and an answer for each file TrID reported on.
  type Report = seq<(Hash, bool)>

  // trid_map pairs answers and paths by position: each path that has one gets the answer at the last position
  // holding that path, whatever path the answer names.
  ghost predicate AnswersIn(paths: seq<Hash>, output: Report, known: map<Hash, bool>)
    requires |output| <= |paths|
  {
    && (forall i :: 0 <= i < |output| ==> paths[i] in known)
    && (forall h :: h in known ==>
          exists i :: 0 <= i < |output| && paths[i] == h && known[h] == output[i].1 &&
                      forall j :: i < j < |output| ==> paths[j] != h)
  }

  function Indexed(paths: seq<Hash>, output: Report, n: nat): map<Hash, bool>
    requires n <= |output| <= |paths|
  {
    if n == 0 then map[] else Indexed(paths, output, n - 1)[paths[n - 1] := output[n - 1].1]
  }

  lemma AnswersGrow(paths: seq<Hash>, output: Report, n: nat, known: map<Hash, bool>)
    requires n < |output| <= |paths| && AnswersIn(paths, output[..n], known)
    ensures AnswersIn(paths, output[..n + 1], known[paths[n] := output[n].1])
  {
    var more, known' := output[..n + 1], known[paths[n] := output[n].1];
    forall h | h in known'
      ensures exists i :: 0 <= i < |more| && paths[i] == h && known'[h] == more[i].1 &&
                          forall j :: i < j < |more| ==> paths[j] != h
    {
      if h == paths[n] {
        assert known'[h] == more[n].1;
      } else {
        var i :| 0 <= i < n && paths[i] == h && known[h] == output[..n][i].1 && forall j :: i < j < n ==> paths[j] != h;
        assert known'[h] == more[i].1;
      }
    }
  }

  lemma {:induction false} IndexedAnswers(paths: seq<Hash>, output: Report, n: nat)
    requires n <= |output| <= |paths|
    ensures AnswersIn(paths, output[..n], Indexed(paths, output, n))
  {
    if n > 0 {
      IndexedAnswers(paths, output, n - 1);
      assert output[..n - 1 + 1] == output[..n];
      AnswersGrow(paths, output, n - 1, Indexed(paths, output, n - 1));
    }
  }

  method IndexAnswers(paths: seq<Hash>, output: Report) returns (known: map<Hash, bool>)
    requires |output| <= |paths|
    ensures known == Indexed(paths, output, |output|) && AnswersIn(paths, output, known)
  {
    known := map[];
    var n := 0;
    while n < |output|
      invariant 0 <= n <= |output| && known == Indexed(paths, output, n)
    {
      known := known[paths[n] := output[n].1];
      n := n + 1;
    }
    IndexedAnswers(paths, output, n);
    assert output[..n] == output;
  }

  // ---------- whose answer a path gets ----------

  function Named(output: Report): (names: seq<Hash>)
    ensures |names| == |output| && forall i :: 0 <= i < |output| ==> names[i] == output[i].0
  {
    seq(|output|, i requires 0 <= i < |output| => output[i].0)
  }

  function Reporting(names: seq<Hash>, answers: seq<bool>): (output: Report)
    requires |names| == |answers|
    ensures |output| == |names| && forall i :: 0 <= i < |names| ==> output[i] == (names[i], answers[i])
  {
    seq(|names|, i requires 0 <= i < |names| => (names[i], answers[i]))
  }

  predicate Distinct(paths: seq<Hash>) {
    forall i, j :: 0 <= i < j < |paths| ==> paths[i] != paths[j]
  }

  // What was meant: the answers under the paths they name.
  function Meant(output: Report): map<Hash, bool> {
    Indexed(Named(output), output, |output|)
  }

  lemma {:induction false} AlignedIndexed(paths: seq<Hash>, output: Report, n: nat)
    requires n <= |output| <= |paths| && forall i :: 0 <= i < n ==> output[i].0 == paths[i]
    ensures Indexed(paths, output, n) == Indexed(Named(output), output, n)
  {
    if n > 0 {
      AlignedIndexed(paths, output, n - 1);
    }
  }

  // If each answer names the path at its position, every path gets the last answer about itself.
  lemma OwnAnswers(paths: seq<Hash>, output: Report)
    requires |output| <= |paths| && forall i :: 0 <= i < |output| ==> output[i].0 == paths[i]
    ensures Indexed(paths, output, |output|) == Meant(output)
    ensures forall h :: h in Meant(output) ==>
              exists i :: 0 <= i < |output| && output[i] == (h, Meant(output)[h]) &&
                          forall j :: i < j < |output| ==> output[j].0 != h
  {
    AlignedIndexed(paths, output, |output|);
    IndexedAnswers(Named(output), output, |output|);
    assert output[..|output|] == output;
    forall h | h in Meant(output)
      ensures exists i :: 0 <= i < |output| && output[i] == (h, Meant(output)[h]) &&
                          forall j :: i < j < |output| ==> output[j].0 != h
    {
      var i :| 0 <= i < |output| && Named(output)[i] == h && Meant(output)[h] == output[i].1 &&
               forall j :: i < j < |output| ==> Named(output)[j] != h;
      assert output[i] == (h, Meant(output)[h]);
      assert forall j :: i < j < |output| ==> Named(output)[j] == output[j].0;
    }
  }

  // Answers that single out position i, which names another path.
  function OnlyAt(n: nat, i: nat): (answers: seq<bool>)
    ensures |answers| == n && forall j :: 0 <= j < n ==> answers[j] == (j == i)
  {
    seq(n, j => j == i)
  }

  lemma DistinctIndexed(paths: seq<Hash>, output: Report, i: nat)
    requires i < |output| <= |paths| && Distinct(paths)
    ensures var known := Indexed(paths, output, |output|);
            paths[i] in known && known[paths[i]] == output[i].1
  {
    IndexedAnswers(paths, output, |output|);
    assert output[..|output|] == output;
  }

  lemma WrongAnswer(paths: seq<Hash>, names: seq<Hash>, i: nat)
    requires i < |names| <= |paths| && Distinct(paths) && names[i] != paths[i]
    ensures var output := Reporting(names, OnlyAt(|names|, i));
            Indexed(paths, output, |output|) != Meant(output)
  {
    var output := Reporting(names, OnlyAt(|names|, i));
    DistinctIndexed(paths, output, i);
    IndexedAnswers(Named(output), output, |output|);
    assert output[..|output|] == output;
    var got, meant := Indexed(paths, output, |output|), Meant(output);
    assert paths[i] in got && got[paths[i]];
    if paths[i] in meant {
      var j :| 0 <= j < |output| && Named(output)[j] == paths[i] && meant[paths[i]] == output[j].1;
      assert !meant[paths[i]];
    }
  }

  // Over distinct paths every file gets its own answers, whatever they are, exactly when TrID reported on the
  // files in the order in which they were handed to it, none left out before another.
  lemma OwnAnswersIff(paths: seq<Hash>, names: seq<Hash>)
    requires |names| <= |paths| && Distinct(paths)
    ensures (forall answers: seq<bool> :: |answers| == |names| ==>
               Indexed(paths, Reporting(names, answers), |names|) == Meant(Reporting(names, answers)))
            <==> names <= paths
  {
    if names <= paths {
      forall answers: seq<bool> | |answers| == |names|
        ensures Indexed(paths, Reporting(names, answers), |names|) == Meant(Reporting(names, answers))
      {
        AlignedIndexed(paths, Reporting(names, answers), |names|);
      }
    } else {
      var i :| 0 <= i < |names| && names[i] != paths[i];
      WrongAnswer(paths, names, i);
    }
  }

  // TrID runs on one batch of the paths after another; of a batch it prints nothing about, all answers are lost.
  datatype Batch = Batch(paths: seq<Hash>, printed: bool)

  function Handed(bs: seq<Batch>): seq<Hash> {
    if bs == [] then [] else bs[0].paths + Handed(bs[1..])
  }

  function Answered(bs: seq<Batch>): (names: seq<Hash>)
    ensures |names| <= |Handed(bs)|
    ensures forall h :: h in names ==> h in Handed(bs)
  {
    if bs == [] then [] else (if bs[0].printed then bs[0].paths else []) + Answered(bs[1..])
  }

  // No batch is lost before one that is answered.
  predicate LostLast(bs: seq<Batch>) {
    bs != [] ==>
      && (!bs[0].printed && bs[0].paths != [] ==> Answered(bs[1..]) == [])
      && LostLast(bs[1..])
  }

  lemma SamePrefix(a: seq<Hash>, x: seq<Hash>, y: seq<Hash>)
    ensures a + x <= a + y <==> x <= y
  {
    assert (a + x)[|a|..] == x && (a + y)[|a|..] == y;
    if a + x <= a + y {
      forall i | 0 <= i < |x|
        ensures x[i] == y[i]
      {
        assert (a + x)[|a| + i] == (a + y)[|a| + i];
      }
    }
  }

  lemma DistinctParts(first: seq<Hash>, rest: seq<Hash>, h: Hash)
    requires Distinct(first + rest)
    ensures Distinct(rest)
    ensures first != [] && h in rest ==> h != first[0]
  {
    forall i | 0 <= i < |rest|
      ensures rest[i] == (first + rest)[|first| + i]
    {}
    assert first != [] ==> (first + rest)[0] == first[0];
  }

  // The names TrID reports are in the order handed to it exactly when no batch is lost before an answered one.
  lemma {:induction false} InOrderIff(bs: seq<Batch>)
    requires Distinct(Handed(bs))
    ensures Answered(bs) <= Handed(bs) <==> LostLast(bs)
  {
    if bs != [] {
      var first, handed, names := bs[0].paths, Handed(bs[1..]), Answered(bs[1..]);
      DistinctParts(first, handed, if names == [] then 0 else names[0]);
      InOrderIff(bs[1..]);
      if bs[0].printed || first == [] {
        SamePrefix(first, names, handed);
        assert Answered(bs) == first + names;
      } else if names == [] {
        NoAnswersLostLast(bs[1..]);
      } else {
        assert (first + handed)[0] == first[0];
      }
    }
  }

  lemma {:induction false} NoAnswersLostLast(bs: seq<Batch>)
    requires Answered(bs) == []
    ensures LostLast(bs)
  {
    if bs != [] {
      NoAnswersLostLast(bs[1..]);
    }
  }

  // Every file is graded by its own answer, whatever the answers, exactly when no batch is lost before an
  // answered one.
  lemma BatchesIff(bs: seq<Batch>)
    requires Distinct(Handed(bs))
    ensures (forall answers: seq<bool> :: |answers| == |Answered(bs)| ==>
               Indexed(Handed(bs), Reporting(Answered(bs), answers), |answers|) ==
                 Meant(Reporting(Answered(bs), answers)))
            <==> LostLast(bs)
  {
    OwnAnswersIff(Handed(bs), Answered(bs));
    InOrderIff(bs);
  }

  // Such a loss: the first file handed to TrID is graded by the first answer about another batch.
  lemma LostBatch(lost: seq<Hash>, printed: seq<Hash>, answers: seq<bool>)
    requires lost != [] && printed != [] && |answers| == |printed| && Distinct(lost + printed)
    ensures var output := Reporting(printed, answers);
            var known := Indexed(lost + printed, output, |output|);
            lost[0] in known && known[lost[0]] == answers[0] && output[0].0 != lost[0] && lost[0] !in Meant(output)
  {
    var output, paths := Reporting(printed, answers), lost + printed;
    IndexedAnswers(paths, output, |output|);
    IndexedAnswers(Named(output), output, |output|);
    assert output[..|output|] == output;
    assert paths[0] == lost[0];
    forall i | 0 <= i < |printed|
      ensures printed[i] != lost[0]
    {
      assert paths[|lost| + i] == printed[i];
    }
  }

  // What is asked about each queued file: whether it still exists, and whether it is a text file.
  datatype Answers = Answers(still: nat -> bool, text: nat -> bool)

  // The paths without an answer that a text file among the first n entered as not recognised.
  function Entered(files: seq<FileInfo>, known: map<Hash, bool>, a: Answers, n: nat): set<Hash>
    requires n <= |files|
  {
    if n == 0 then {}
    else
      Entered(files, known, a, n - 1) +
      (if a.still(n - 1) && files[n - 1].tmp !in known && a.text(n - 1) then {files[n - 1].tmp} else {})
  }

  // File i counts towards its process: it still exists, and TrID answered, or it is a text file, or one with
  // the same path was entered before.
  predicate Graded(files: seq<FileInfo>, known: map<Hash, bool>, a: Answers, i: nat)
    requires i < |files|
  {
    a.still(i) && (files[i].tmp in known || a.text(i) || files[i].tmp in Entered(files, known, a, i))
  }

  predicate Recognised(files: seq<FileInfo>, known: map<Hash, bool>, i: nat)
    requires i < |files|
  {
    files[i].tmp in known && known[files[i].tmp]
  }

  function Total(files: seq<FileInfo>, known: map<Hash, bool>, a: Answers, n: nat, p: Pid): nat
    requires n <= |files|
  {
    if n == 0 then 0
    else Total(files, known, a, n - 1, p) + (if Graded(files, known, a, n - 1) && files[n - 1].pid == p then 1 else 0)
  }

  function Good(files: seq<FileInfo>, known: map<Hash, bool>, a: Answers, n: nat, p: Pid): nat
    requires n <= |files|
  {
    if n == 0 then 0
    else Good(files, known, a, n - 1, p) +
         (if Graded(files, known, a, n - 1) && Recognised(files, known, n - 1) && files[n - 1].pid == p then 1 else 0)
  }

  ghost predicate Tallied(files: seq<FileInfo>, known: map<Hash, bool>, a: Answers, n: nat,
                          results: map<Pid, (nat, nat)>)
    requires n <= |files|
  {
    forall p ::
      && (p in results <==> Total(files, known, a, n, p) > 0)
      && (p in results ==> results[p] == (Good(files, known, a, n, p), Total(files, known, a, n, p)))
  }

  lemma {:induction false} GoodIsPart(files: seq<FileInfo>, known: map<Hash, bool>, a: Answers, n: nat, p: Pid)
    requires n <= |files|
    ensures Good(files, known, a, n, p) <= Total(files, known, a, n, p)
  {
    if n > 0 {
      GoodIsPart(files, known, a, n - 1, p);
    }
  }

  lemma {:induction false} TotalIsPart(files: seq<FileInfo>, known: map<Hash, bool>, a: Answers, n: nat, p: Pid)
    requires n <= |files|
    ensures Total(files, known, a, n, p) <= QueuedFor(files[..n], p)
  {
    if n > 0 {
      TotalIsPart(files, known, a, n - 1, p);
      assert files[..n][..n - 1] == files[..n - 1];
    }
  }

  lemma TallyStep(files: seq<FileInfo>, known: map<Hash, bool>, a: Answers, n: nat, results: map<Pid, (nat, nat)>)
    requires n < |files| && Tallied(files, known, a, n, results)
    ensures var q := files[n].pid;
            var r := if q in results then results[q] else (0, 0);
            Tallied(files, known, a, n + 1,
              if Graded(files, known, a, n)
              then results[q := (r.0 + (if Recognised(files, known, n) then 1 else 0), r.1 + 1)]
              else results)
  {
    var q := files[n].pid;
    GoodIsPart(files, known, a, n, q);
    assert q in results <==> Total(files, known, a, n, q) > 0;
  }

  // trid_map after n files: TrID's answers, and false for what the text files entered.
  ghost predicate Filled(files: seq<FileInfo>, known: map<Hash, bool>, a: Answers, n: nat, tridMap: map<Hash, bool>)
    requires n <= |files|
  {
    && (forall h :: h in tridMap <==> h in known || h in Entered(files, known, a, n))
    && (forall h :: h in tridMap ==> tridMap[h] == (h in known && known[h]))
  }

  lemma FilledStep(files: seq<FileInfo>, known: map<Hash, bool>, a: Answers, n: nat, tridMap: map<Hash, bool>)
    requires n < |files| && Filled(files, known, a, n, tridMap)
    ensures var tmp, counts := files[n].tmp, a.still(n);
            && Graded(files, known, a, n) == (counts && (tmp in tridMap || a.text(n)))
            && Recognised(files, known, n) == (tmp in tridMap && tridMap[tmp])
            && Filled(files, known, a, n + 1,
                      if counts && tmp !in tridMap && a.text(n) then tridMap[tmp := false] else tridMap)
  {}

  // TrID's answer about one file, or the entry a text file makes for lack of one.
  method Grade(tmp: Hash, isText: bool, tridMap0: map<Hash, bool>)
    returns (tridMap: map<Hash, bool>, isGraded: bool, isRecognised: bool)
    ensures isGraded == (tmp in tridMap0 || isText) && isRecognised == (tmp in tridMap0 && tridMap0[tmp])
    ensures tridMap == if tmp !in tridMap0 && isText then tridMap0[tmp := false] else tridMap0
  {
    tridMap := tridMap0;
    if tmp !in tridMap {
      if !isText {
        return tridMap, false, false;
      }
      tridMap := tridMap[tmp := false];
    }
    return tridMap, true, tridMap[tmp];
  }

  // The loop over the queued files. Reading trid_map enters an absent path as not recognised.
  method Tally(files: seq<FileInfo>, known: map<Hash, bool>, a: Answers) returns (results: map<Pid, (nat, nat)>)
    ensures Tallied(files, known, a, |files|, results)
  {
    results := map[];
    var tridMap := known;
    var n := 0;
    while n < |files|
      invariant 0 <= n <= |files| && Tallied(files, known, a, n, results)
      invariant Filled(files, known, a, n, tridMap)
    {
      FilledStep(files, known, a, n, tridMap);
      TallyStep(files, known, a, n, results);
      var f := files[n];
      n := n + 1;
      if !a.still(n - 1) {
        continue;
      }
      var isGraded, isRecognised;
      tridMap, isGraded, isRecognised := Grade(f.tmp, a.text(n - 1), tridMap);
      if !isGraded {
        continue;
      }
      var r := if f.pid in results then results[f.pid] else (0, 0);
      results := results[f.pid := (r.0 + (if isRecognised then 1 else 0), r.1 + 1)];
    }
  }

  // ---------- the verdict ----------

  predicate BelowThreshold(part: nat, total: nat) {
    part <= total * 80 / 100
  }

  lemma ThresholdIsRatio(part: nat, total: nat)
    ensures BelowThreshold(part, total) <==> 100 * part <= 80 * total
  {}

  method Verdict(results: map<Pid, (nat, nat)>) returns (flagged: set<Pid>)
    ensures flagged == set p | p in results && results[p].1 >= MIN_FILE_COUNT && 100 * results[p].0 <= 80 * results[p].1
  {
    flagged := {};
    var todo := results.Keys;
    while todo != {}
      invariant todo <= results.Keys
      invariant flagged == set p | p in results && p !in todo &&
                  results[p].1 >= MIN_FILE_COUNT && 100 * results[p].0 <= 80 * results[p].1
      decreases todo
    {
      var p :| p in todo;
      ThresholdIsRatio(results[p].0, results[p].1);
      if results[p].1 >= MIN_FILE_COUNT && BelowThreshold(results[p].0, results[p].1) {
        flagged := flagged + {p};
      }
      todo := todo - {p};
    }
  }

  // ---------- the whole evaluation ----------

  // p changed enough files in enough directories to be looked at.
  predicate Suspect(es: seq<FileIo>, p: Pid) {
    var cs := Charging(es);
    Busy(Files(es, cs, |es|, p), Bytes(es, cs, |es|, p) % TWO64, Dirs(es, cs, |es|, p))
  }

  function Skipped(es: seq<FileIo>): set<Pid> {
    set i | 0 <= i < |es| && !Suspect(es, es[i].pid) :: es[i].pid
  }

  // What pass two starts from, read off the events.
  function EnvOf(es: seq<FileIo>): (v: Env)
    requires Sized(es)
    ensures From(es, v) && Ready(v)
  {
    var v := Env(es, Paths(es, Charging(es), |es|), Skipped(es), SizesOf(es, Firsts(es), |es|));
    SizesOfKnown(es, |es|);
    FromReady(es, v);
    v
  }

  // The paths are the changed ones, the sizes are known, and skipped is who appears but is no suspect.
  ghost predicate From(es: seq<FileIo>, v: Env) {
    && v.es == es && v.unique == Paths(es, Charging(es), |es|) && SizesKnown(es, |es|, v.sizes)
    && (forall p :: p in v.white <==> (exists i :: 0 <= i < |es| && es[i].pid == p) && !Suspect(es, p))
  }

  lemma FromReady(es: seq<FileIo>, v: Env)
    requires Sized(es) && From(es, v)
    ensures Ready(v)
  {
    forall h | h in v.unique
      ensures h in v.sizes && 0 < v.sizes[h] < 0x8000_0000_0000_0000
    {
      PathsBefore(es, Charging(es), |es|, h);
      var i :| 0 <= i < |es| && Charging(es)[i] && es[i].hash == h;
      assert First(es, i) && es[i] in es;
    }
  }

  // Whoever has a file graded is a suspect.
  lemma {:induction false} GradedIsSuspect(es: seq<FileIo>, v: Env, known: map<Hash, bool>, a: Answers, n: nat, p: Pid)
    requires From(es, v) && Ready(v)
    requires n <= |Queue(v, |es|)| && Total(Queue(v, |es|), known, a, n, p) > 0
    ensures Suspect(es, p)
  {
    var q := Queue(v, |es|);
    if Graded(q, known, a, n - 1) && q[n - 1].pid == p {
      QueueTaken(v, |es|);
      assert q[n - 1] in q;
      assert es[q[n - 1].event].pid == p;
    } else {
      GradedIsSuspect(es, v, known, a, n - 1, p);
    }
  }

  lemma SkippedAreNotSuspect(es: seq<FileIo>, counts: map<Pid, FileCount>, white: set<Pid>)
    requires CountsKnown(es, Charging(es), |es|, counts)
    requires white == set p | p in counts && !Busy(counts[p].fileCount, counts[p].totalSize, counts[p].dirs)
    ensures white == Skipped(es)
  {
    forall p | p in counts
      ensures Busy(counts[p].fileCount, counts[p].totalSize, counts[p].dirs) == Suspect(es, p)
    {
      assert CountOk(es, Charging(es), |es|, p, counts[p]);
    }
  }

  // Pass one and the filter.
  method Prepare(es: seq<FileIo>) returns (v: Env, counts: map<Pid, FileCount>)
    requires Sized(es)
    ensures v == EnvOf(es) && Running(v, 0, v.unique, counts, [])
  {
    var unique, sizes, white;
    counts, unique, sizes := PassOne(es);
    ghost var before := counts;
    counts, white := Filter(counts);
    v := Env(es, unique, white, sizes);
    SkippedAreNotSuspect(es, before, white);
  }

  // ---------- for whom a changed path is queued ----------

  // If every event is a change, as the two producers of events make them, so is every event that queues a file.
  lemma QueuedAreChanges(es: seq<FileIo>)
    requires Sized(es) && forall e :: e in es ==> Changes(e)
    ensures forall f :: f in Queue(EnvOf(es), |es|) ==>
              f.event < |es| && f.pid == es[f.event].pid && Changes(es[f.event])
  {
    QueueTaken(EnvOf(es), |es|);
  }

  lemma {:induction false} SpentGrows(v: Env, i: nat, n: nat, p: Pid)
    requires Ready(v) && i <= n <= |v.es|
    ensures Spent(v, i, p) <= Spent(v, n, p)
    decreases n
  {
    if i < n {
      SpentGrows(v, i, n - 1, p);
    }
  }

  lemma {:induction false} StaysLeft(v: Env, n: nat, h: Hash)
    requires Ready(v) && n <= |v.es| && h in v.unique && forall j :: 0 <= j < n && v.es[j].hash == h ==> !Takes(v, j)
    ensures h in Left(v, n)
  {
    if n > 0 {
      StaysLeft(v, n - 1, h);
    }
  }

  // Let f be the first event of its process on a path. The path is taken for that process exactly when f takes it.
  lemma TakerIs(v: Env, f: nat, t: nat)
    requires Ready(v) && f < |v.es| && t < |v.es| && Takes(v, t) && v.es[t].hash == v.es[f].hash
    requires forall j :: 0 <= j < f && v.es[j].hash == v.es[f].hash ==> v.es[j].pid != v.es[f].pid
    ensures v.es[t].pid == v.es[f].pid <==> Takes(v, f)
  {
    if Takes(v, f) {
      if f < t {
        TakenOnce(v, f, t);
      } else if t < f {
        TakenOnce(v, t, f);
      }
    } else if v.es[t].pid == v.es[f].pid {
      LeftShrinks(v, f, t);
      SpentGrows(v, f, t, v.es[f].pid);
    }
  }

  // A path is there or not, for all events on it.
  predicate PresentByPath(es: seq<FileIo>) {
    forall i, j :: 0 <= i < |es| && 0 <= j < |es| && es[i].hash == es[j].hash ==> Present(es[i]) == Present(es[j])
  }

  // So a charged path is taken for the process it was charged to exactly when that process is not skipped and
  // still had the budget when it changed the path.
  lemma TakerIsCharged(es: seq<FileIo>, c: nat, t: nat)
    requires Sized(es) && PresentByPath(es) && c < |es| && Charges(es, c)
    requires t < |es| && Takes(EnvOf(es), t) && es[t].hash == es[c].hash
    ensures es[c].hash in EnvOf(es).sizes
    ensures var v := EnvOf(es);
            es[t].pid == es[c].pid <==>
            es[c].pid !in v.white && Spent(v, c, es[c].pid) + v.sizes[es[c].hash] <= 52_428_800
  {
    var v := EnvOf(es);
    assert Charging(es)[c];
    PathsBefore(es, Charging(es), |es|, es[c].hash);
    StaysLeft(v, c, es[c].hash);
    TakerIs(v, c, t);
  }

  // A batch where it is not: process 1 changes one file and is skipped; process 2 changes ten others and then the
  // same one, which is scanned on its behalf.
  function CrossedEvent(i: nat): FileIo {
    FileIo(if i == 0 then 1 else 2, if i == 11 then 0 else i, i % 2, WRITE_FLAG, true, false, 1, Some(i))
  }

  function Crossed(): (es: seq<FileIo>)
    ensures |es| == 12 && forall i :: 0 <= i < 12 ==> es[i] == CrossedEvent(i)
  {
    seq(12, i requires 0 <= i => CrossedEvent(i))
  }

  lemma CrossedCharges(i: nat)
    requires i < 12
    ensures Charges(Crossed(), i) <==> i != 11
    ensures Sized(Crossed()) && PresentByPath(Crossed()) && Changes(Crossed()[i])
  {
    var es := Crossed();
    assert forall j :: 0 <= j < 12 ==> es[j].size == 1 && Present(es[j]);
    assert WRITE_FLAG & WRITE_FLAG != 0;
    if i == 11 {
      assert es[0].hash == es[11].hash;
    }
  }

  lemma {:induction false} CrossedFiles(cs: seq<bool>, n: nat)
    requires n <= 12 && |cs| == 12 && forall i :: 0 <= i < 12 ==> cs[i] == (i != 11)
    ensures Files(Crossed(), cs, n, 1) <= 1
    ensures Files(Crossed(), cs, n, 2) == if n == 0 then 0 else if n < 12 then n - 1 else 10
    ensures (n > 1 ==> 1 in Dirs(Crossed(), cs, n, 2)) && (n > 2 ==> 0 in Dirs(Crossed(), cs, n, 2))
    ensures n == 1 ==> Files(Crossed(), cs, n, 1) == 1
  {
    if n > 0 {
      CrossedFiles(cs, n - 1);
      CrossedOne(cs, n - 1);
    }
  }

  lemma CrossedOne(cs: seq<bool>, n: nat)
    requires n < 12 && |cs| == 12
    ensures Crossed()[n].pid == (if n == 0 then 1 else 2) && Crossed()[n].dir == n % 2
    ensures n > 0 ==> Files(Crossed(), cs, n + 1, 1) == Files(Crossed(), cs, n, 1)
  {}

  lemma TwoIn(s: set<Hash>)
    requires 0 in s && 1 in s
    ensures |s| >= 2
  {
    assert s == {0, 1} + (s - {0, 1});
  }

  lemma CrossedSuspects()
    ensures !Suspect(Crossed(), 1) && Suspect(Crossed(), 2)
  {
    var es, cs := Crossed(), Charging(Crossed());
    forall i | 0 <= i < 12
      ensures cs[i] == (i != 11)
    {
      CrossedCharges(i);
    }
    CrossedFiles(cs, 12);
    TwoIn(Dirs(es, cs, 12, 2));
  }

  lemma {:induction false} CrossedSpent(v: Env, n: nat, p: Pid)
    requires Ready(v) && n <= |v.es| && forall h :: h in v.unique ==> v.sizes[h] == 1
    ensures Spent(v, n, p) <= n
  {
    if n > 0 {
      CrossedSpent(v, n - 1, p);
    }
  }

  lemma CrossedChanges()
    ensures var es := Crossed();
            Sized(es) && (forall e :: e in es ==> Changes(e)) && PresentByPath(es) && Charges(es, 0)
  {
    forall i | 0 <= i < 12
      ensures Changes(Crossed()[i])
    {
      CrossedCharges(i);
    }
    CrossedCharges(0);
  }

  lemma CrossedEnv(v: Env)
    requires From(Crossed(), v) && Ready(v)
    ensures 1 in v.white && 2 !in v.white && 0 in v.unique && forall h :: h in v.unique ==> v.sizes[h] == 1
  {
    var es := Crossed();
    CrossedSuspects();
    assert es[0].pid == 1;
    CrossedCharges(0);
    assert Charging(es)[0];
    PathsBefore(es, Charging(es), 12, 0);
    forall h | h in v.unique
      ensures v.sizes[h] == 1
    {
      var i :| 0 <= i < 12 && First(es, i) && es[i].hash == h;
    }
  }

  lemma CrossedTaken(v: Env, t: nat)
    requires From(Crossed(), v) && Ready(v) && t == 11
    ensures Takes(v, t)
  {
    CrossedEnv(v);
    StaysLeft(v, t, 0);
    CrossedSpent(v, t, 2);
  }

  lemma TakenForAnother() returns (es: seq<FileIo>, c: nat, t: nat)
    ensures Sized(es) && (forall e :: e in es ==> Changes(e)) && PresentByPath(es)
    ensures c < |es| && Charges(es, c) && t < |es| && Takes(EnvOf(es), t)
    ensures es[t].hash == es[c].hash && es[t].pid != es[c].pid
    ensures exists f :: f in Queue(EnvOf(es), |es|) && f.event == t && f.pid == es[t].pid
  {
    CrossedChanges();
    es, c := Crossed(), 0;
    t := |es| - 1;
    CrossedTaken(EnvOf(es), t);
    TakenLast(EnvOf(es), t);
  }

  // A path taken by the last event, and copied, is the last one queued.
  lemma TakenLast(v: Env, t: nat)
    requires Ready(v) && t + 1 == |v.es| && Takes(v, t) && v.es[t].tmp.Some?
    ensures exists f :: f in Queue(v, |v.es|) && f.event == t && f.pid == v.es[t].pid
  {
    assert FileInfo(t, v.es[t].tmp.value, v.es[t].pid) in Queue(v, |v.es|);
  }

  // The paths handed to TrID.
  function Names(files: seq<FileInfo>): (r: seq<Hash>)
    ensures |r| == |files| && forall i :: 0 <= i < |files| ==> r[i] == files[i].tmp
  {
    if files == [] then [] else Names(files[..|files| - 1]) + [files[|files| - 1].tmp]
  }

  function Asked(trid: seq<Hash> -> Report, paths: seq<Hash>): Report {
    if |paths| >= MIN_FILE_COUNT then trid(paths) else []
  }

  // TrID's answers about the queued files. It is run once there are enough of them for a verdict.
  function Known(files: seq<FileInfo>, trid: seq<Hash> -> Report): map<Hash, bool>
    requires forall paths :: |trid(paths)| <= |paths|
  {
    var output := Asked(trid, Names(files));
    Indexed(Names(files), output, |output|)
  }

  method Judge(files: seq<FileInfo>, paths: seq<Hash>, trid: seq<Hash> -> Report, a: Answers)
    returns (flagged: set<Pid>)
    requires paths == Names(files) && forall paths :: |trid(paths)| <= |paths|
    ensures forall p :: p in flagged <==> Guilty(files, Known(files, trid), a, p)
  {
    var output: Report := [];
    if |paths| >= MIN_FILE_COUNT {
      output := trid(paths);
    }
    var tridMap := IndexAnswers(paths, output);
    var results := Tally(files, tridMap, a);
    flagged := Verdict(results);
    forall p
      ensures p in flagged <==> Guilty(files, tridMap, a, p)
    {
      assert p in results <==> Total(files, tridMap, a, |files|, p) > 0;
    }
  }

  // At least ten graded files, of which at most 80 percent were recognised.
  predicate Guilty(files: seq<FileInfo>, known: map<Hash, bool>, a: Answers, p: Pid) {
    var good, total := Good(files, known, a, |files|, p), Total(files, known, a, |files|, p);
    total >= 10 && 100 * good <= 80 * total
  }

  // The guilty changed ten files in two directories, and ten files were queued for them, within the budget.
  lemma GuiltyIsSuspect(es: seq<FileIo>, known: map<Hash, bool>, a: Answers, p: Pid)
    requires Sized(es) && Guilty(Queue(EnvOf(es), |es|), known, a, p)
    ensures Suspect(es, p) && QueuedFor(Queue(EnvOf(es), |es|), p) >= 10 && Spent(EnvOf(es), |es|, p) <= 52_428_800
  {
    var v := EnvOf(es);
    var q := Queue(v, |es|);
    GradedIsSuspect(es, v, known, a, |q|, p);
    TotalIsPart(q, known, a, |q|, p);
    assert q[..|q|] == q;
    WithinBudget(v, |es|, p);
  }

  // p is guilty by the files queued in pass two and TrID's answers about them.
  predicate Reported(es: seq<FileIo>, trid: seq<Hash> -> Report, a: Answers, p: Pid)
    requires Sized(es) && forall paths :: |trid(paths)| <= |paths|
  {
    var q := Queue(EnvOf(es), |es|);
    Guilty(q, Known(q, trid), a, p)
  }

  // Exactly the guilty are reported; GuiltyIsSuspect says what is known of each of them.
  method EvaluateProcess(es: seq<FileIo>, trid: seq<Hash> -> Report, a: Answers) returns (flagged: set<Pid>)
    requires Sized(es) && forall paths :: |trid(paths)| <= |paths|
    ensures forall p :: p in flagged <==> Reported(es, trid, a, p)
    ensures forall p :: p in flagged ==> Suspect(es, p)
  {
    var v, counts := Prepare(es);
    var left, files, paths;
    left, counts, files, paths := PassTwo(v, counts);
    assert paths == Names(files);
    flagged := Judge(files, paths, trid, a);
    forall p | p in flagged
      ensures Suspect(es, p)
    {
      GuiltyIsSuspect(es, Known(files, trid), a, p);
    }
  }
}

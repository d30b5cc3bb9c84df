/** What the evaluation amounts to, in terms of the events and the answers alone.

    The members of Evaluation compute by recursion along the loops. Here each of them is said again without its
    own body: as sets of events, with the thresholds written out.
 */
module EvaluationLaws {
  import opened Counting
  import opened OrderedMap
  import opened Evaluation

  // ---------- pass one ----------

  // Event i charges its process: it is a write or a rename of a non-empty file that is there and no executable,
  // and no earlier event found such a file on the path.
  lemma ChargesMeans(es: seq<FileIo>, i: nat)
    requires i < |es|
    ensures Charges(es, i) <==>
            && es[i].isThere && !es[i].isExecutable && es[i].size != 0
            && (es[i].flags & 0x10 != 0 || es[i].flags & 0x04 != 0)
            && (forall j :: 0 <= j < i && es[j].hash == es[i].hash ==> !es[j].isThere || es[j].isExecutable)
  {}

  // The events that charge p.
  ghost function ChargesTo(es: seq<FileIo>, p: Pid): set<nat> {
    set i | 0 <= i < |es| && Charges(es, i) && es[i].pid == p
  }

  lemma {:induction false} FilesTrues(es: seq<FileIo>, cs: seq<bool>, n: nat, p: Pid, marks: seq<bool>)
    requires Billed(es, cs, n) && |marks| == |es|
    requires forall i :: 0 <= i < |es| ==> marks[i] == (cs[i] && es[i].pid == p)
    ensures Files(es, cs, n, p) == Trues(marks, n)
  {
    if n > 0 {
      FilesTrues(es, cs, n - 1, p, marks);
    }
  }

  // The file count of a process is the number of events that charge it.
  lemma FilesCounted(es: seq<FileIo>, p: Pid)
    ensures Files(es, Charging(es), |es|, p) == |ChargesTo(es, p)|
  {
    var marks := seq(|es|, i requires 0 <= i < |es| => Charges(es, i) && es[i].pid == p);
    FilesTrues(es, Charging(es), |es|, p, marks);
    TruesCounted(marks, |es|);
    assert ChargesTo(es, p) == set i | 0 <= i < |es| && marks[i];
  }

  lemma {:induction false} DirsCollected(es: seq<FileIo>, cs: seq<bool>, n: nat, p: Pid, d: Hash)
    requires Billed(es, cs, n)
    ensures d in Dirs(es, cs, n, p) <==> exists i :: 0 <= i < n && cs[i] && es[i].pid == p && es[i].dir == d
  {
    if n > 0 {
      DirsCollected(es, cs, n - 1, p, d);
    }
  }

  lemma DirsMeans(es: seq<FileIo>, p: Pid)
    ensures Dirs(es, Charging(es), |es|, p) == set i | i in ChargesTo(es, p) :: es[i].dir
  {
    var dirs := set i | i in ChargesTo(es, p) :: es[i].dir;
    forall d
      ensures d in Dirs(es, Charging(es), |es|, p) <==> d in dirs
    {
      DirsCollected(es, Charging(es), |es|, p, d);
    }
  }

  // A process is looked at exactly when it is charged with at least ten files in at least two directories.
  lemma SuspectMeans(es: seq<FileIo>, p: Pid)
    ensures Suspect(es, p) <==>
            |ChargesTo(es, p)| >= 10 && |set i | i in ChargesTo(es, p) :: es[i].dir| >= 2
  {
    FilesCounted(es, p);
    DirsMeans(es, p);
  }

  // What pass two starts from: the paths that were charged, with the size the charging event saw, and everybody
  // among the events who is not looked at.
  lemma EnvMeans(es: seq<FileIo>)
    requires Sized(es)
    ensures EnvOf(es).es == es
    ensures forall h :: h in EnvOf(es).unique <==> exists i :: 0 <= i < |es| && Charges(es, i) && es[i].hash == h
    ensures forall i :: 0 <= i < |es| && Charges(es, i) ==>
              es[i].hash in EnvOf(es).sizes && EnvOf(es).sizes[es[i].hash] == es[i].size
    ensures forall p :: p in EnvOf(es).white <==> (exists i :: 0 <= i < |es| && es[i].pid == p) && !Suspect(es, p)
  {
    forall h
      ensures h in EnvOf(es).unique <==> exists i :: 0 <= i < |es| && Charges(es, i) && es[i].hash == h
    {
      PathsBefore(es, Charging(es), |es|, h);
    }
    assert forall i :: 0 <= i < |es| && Charges(es, i) ==> First(es, i);
  }

  // ---------- pass two ----------

  // A path is still to be scanned as long as no event has taken it.
  lemma {:induction false} LeftMeans(v: Env, n: nat, h: Hash)
    requires Ready(v) && n <= |v.es|
    ensures h in Left(v, n) <==> h in v.unique && forall j :: 0 <= j < n && v.es[j].hash == h ==> !Takes(v, j)
  {
    if n > 0 {
      LeftMeans(v, n - 1, h);
    }
  }

  // Event i takes its path: nobody took it before, its process is looked at, and with the file the process
  // stays within 52428800 bytes.
  lemma TakesMeans(v: Env, i: nat)
    requires Ready(v) && i < |v.es|
    ensures Takes(v, i) <==>
            && v.es[i].hash in v.unique && v.es[i].pid !in v.white
            && (forall j :: 0 <= j < i && v.es[j].hash == v.es[i].hash ==> !Takes(v, j))
            && Spent(v, i, v.es[i].pid) + v.sizes[v.es[i].hash] <= 52_428_800
  {
    LeftMeans(v, i, v.es[i].hash);
  }

  // Every taken file, and nothing else, is spent once.
  lemma SpentMeans(v: Env, n: nat, p: Pid)
    requires Ready(v) && n < |v.es|
    ensures Spent(v, 0, p) == 0
    ensures Takes(v, n) ==> v.es[n].hash in v.sizes
    ensures Spent(v, n + 1, p) ==
            Spent(v, n, p) + (if Takes(v, n) && v.es[n].pid == p then v.sizes[v.es[n].hash] else 0)
  {}

  // The queue holds exactly the taken paths that could be copied where they had to be.
  lemma {:induction false} QueueMeans(v: Env, n: nat, f: FileInfo)
    requires Ready(v) && n <= |v.es|
    ensures f in Queue(v, n) <==>
            f.event < n && Takes(v, f.event) && v.es[f.event].tmp == Some(f.tmp) && v.es[f.event].pid == f.pid
  {
    if n > 0 {
      QueueMeans(v, n - 1, f);
    }
  }

  // A queued path was charged by an event that found a file there which is no executable.
  lemma QueuedWasCharged(es: seq<FileIo>, f: FileInfo)
    requires Sized(es) && f in Queue(EnvOf(es), |es|)
    ensures f.event < |es|
    ensures exists c :: 0 <= c < |es| && Charges(es, c) && es[c].hash == es[f.event].hash &&
                        es[c].isThere && !es[c].isExecutable
  {
    QueueMeans(EnvOf(es), |es|, f);
    EnvMeans(es);
    var c :| 0 <= c < |es| && Charges(es, c) && es[c].hash == es[f.event].hash;
    ChargesMeans(es, c);
  }

  // When presence depends on the path alone, no event on an executable charges anybody or queues anything.
  lemma NoExecutable(es: seq<FileIo>, i: nat)
    requires Sized(es) && PresentByPath(es) && i < |es| && es[i].isExecutable
    ensures !Charges(es, i) && forall f :: f in Queue(EnvOf(es), |es|) ==> f.event != i
  {
    ChargesMeans(es, i);
    forall f | f in Queue(EnvOf(es), |es|)
      ensures f.event != i
    {
      QueuedWasCharged(es, f);
    }
  }

  lemma {:induction false} QueuedForTrues(files: seq<FileInfo>, n: nat, p: Pid, marks: seq<bool>)
    requires n <= |files| == |marks| && forall i :: 0 <= i < |files| ==> marks[i] == (files[i].pid == p)
    ensures QueuedFor(files[..n], p) == Trues(marks, n)
  {
    if n > 0 {
      QueuedForTrues(files, n - 1, p, marks);
      assert files[..n][..n - 1] == files[..n - 1];
    }
  }

  lemma QueuedForCounted(files: seq<FileInfo>, p: Pid)
    ensures QueuedFor(files, p) == |set i | 0 <= i < |files| && files[i].pid == p|
  {
    var marks := seq(|files|, i requires 0 <= i < |files| => files[i].pid == p);
    QueuedForTrues(files, |files|, p, marks);
    TruesCounted(marks, |files|);
    assert files[..|files|] == files;
    assert (set i | 0 <= i < |files| && files[i].pid == p) == set i | 0 <= i < |files| && marks[i];
  }

  // ---------- the tallies ----------

  lemma {:induction false} EnteredMeans(files: seq<FileInfo>, known: map<Hash, bool>, a: Answers, n: nat, h: Hash)
    requires n <= |files|
    ensures h in Entered(files, known, a, n) <==>
            h !in known && exists j :: 0 <= j < n && files[j].tmp == h && a.still(j) && a.text(j)
  {
    if n > 0 {
      EnteredMeans(files, known, a, n - 1, h);
    }
  }

  // A file is graded if it still exists and either TrID answered about it or it, or an earlier file scanned under
  // the same path, is an existing text file.
  lemma GradedMeans(files: seq<FileInfo>, known: map<Hash, bool>, a: Answers, i: nat)
    requires i < |files|
    ensures Graded(files, known, a, i) <==>
            a.still(i) && (files[i].tmp in known ||
                           exists j :: 0 <= j <= i && files[j].tmp == files[i].tmp && a.still(j) && a.text(j))
  {
    EnteredMeans(files, known, a, i, files[i].tmp);
  }

  ghost function GradedFor(files: seq<FileInfo>, known: map<Hash, bool>, a: Answers, p: Pid): set<nat> {
    set i | 0 <= i < |files| && Graded(files, known, a, i) && files[i].pid == p
  }

  predicate GoodAt(files: seq<FileInfo>, known: map<Hash, bool>, a: Answers, i: nat, p: Pid)
    requires i < |files|
  {
    Graded(files, known, a, i) && files[i].pid == p && files[i].tmp in known && known[files[i].tmp]
  }

  lemma {:induction false} TotalTrues(files: seq<FileInfo>, known: map<Hash, bool>, a: Answers, n: nat, p: Pid,
                                      marks: seq<bool>)
    requires n <= |files| == |marks|
    requires forall i :: 0 <= i < |files| ==> marks[i] == (Graded(files, known, a, i) && files[i].pid == p)
    ensures Total(files, known, a, n, p) == Trues(marks, n)
  {
    if n > 0 {
      TotalTrues(files, known, a, n - 1, p, marks);
    }
  }

  lemma {:induction false} GoodTrues(files: seq<FileInfo>, known: map<Hash, bool>, a: Answers, n: nat, p: Pid,
                                     marks: seq<bool>)
    requires n <= |files| == |marks|
    requires forall i :: 0 <= i < |files| ==> marks[i] == GoodAt(files, known, a, i, p)
    ensures Good(files, known, a, n, p) == Trues(marks, n)
  {
    if n > 0 {
      GoodTrues(files, known, a, n - 1, p, marks);
    }
  }

  lemma TotalCounted(files: seq<FileInfo>, known: map<Hash, bool>, a: Answers, p: Pid)
    ensures Total(files, known, a, |files|, p) == |GradedFor(files, known, a, p)|
  {
    var marks := seq(|files|, i requires 0 <= i < |files| => Graded(files, known, a, i) && files[i].pid == p);
    TotalTrues(files, known, a, |files|, p, marks);
    TruesCounted(marks, |files|);
    assert GradedFor(files, known, a, p) == set i | 0 <= i < |files| && marks[i];
  }

  lemma GoodCounted(files: seq<FileInfo>, known: map<Hash, bool>, a: Answers, p: Pid)
    ensures Good(files, known, a, |files|, p) ==
            |set i | i in GradedFor(files, known, a, p) && files[i].tmp in known && known[files[i].tmp]|
  {
    var marks := seq(|files|, i requires 0 <= i < |files| => GoodAt(files, known, a, i, p));
    GoodTrues(files, known, a, |files|, p, marks);
    TruesCounted(marks, |files|);
    assert (set i | i in GradedFor(files, known, a, p) && files[i].tmp in known && known[files[i].tmp]) ==
           set i | 0 <= i < |files| && marks[i];
  }

  // p is guilty if at least ten files queued for it were graded and TrID recognised at most 80 percent of them.
  lemma GuiltyMeans(files: seq<FileInfo>, known: map<Hash, bool>, a: Answers, p: Pid)
    ensures Guilty(files, known, a, p) <==>
            var graded := GradedFor(files, known, a, p);
            |graded| >= 10 &&
            100 * |set i | i in graded && files[i].tmp in known && known[files[i].tmp]| <= 80 * |graded|
  {
    TotalCounted(files, known, a, p);
    GoodCounted(files, known, a, p);
  }

  // ---------- what TrID's answers do ----------

  // TrID is run for ten or more files, and then its answers are what the verdict goes by.
  lemma KnownMeans(files: seq<FileInfo>, trid: seq<Hash> -> Report)
    requires forall paths :: |trid(paths)| <= |paths|
    ensures |files| >= 10 ==> AnswersIn(Names(files), trid(Names(files)), Known(files, trid))
    ensures |files| < 10 ==> Known(files, trid) == map[]
  {
    var output := trid(Names(files));
    IndexedAnswers(Names(files), output, |output|);
    assert output[..|output|] == output;
  }

  // Who is reported: the queue of pass two and TrID's answers about it decide.
  lemma ReportedMeans(es: seq<FileIo>, trid: seq<Hash> -> Report, a: Answers, p: Pid)
    requires Sized(es) && forall paths :: |trid(paths)| <= |paths|
    ensures var q := Queue(EnvOf(es), |es|);
            var known := Known(q, trid);
            var graded := GradedFor(q, known, a, p);
            && (|q| >= 10 ==> AnswersIn(Names(q), trid(Names(q)), known))
            && (|q| < 10 ==> known == map[])
            && (Reported(es, trid, a, p) <==>
                |graded| >= 10 &&
                100 * |set i | i in graded && q[i].tmp in known && known[q[i].tmp]| <= 80 * |graded|)
  {
    var q := Queue(EnvOf(es), |es|);
    KnownMeans(q, trid);
    GuiltyMeans(q, Known(q, trid), a, p);
  }

  // If all of ten or more queued files still exist and TrID answers about each of them, then exactly those
  // processes are reported for which ten files are queued of which at most 80 percent have a true answer.
  lemma AllAnswered(es: seq<FileIo>, trid: seq<Hash> -> Report, a: Answers, p: Pid)
    requires Sized(es) && forall paths :: |trid(paths)| <= |paths|
    requires var q := Queue(EnvOf(es), |es|);
             |q| >= 10 && |trid(Names(q))| == |q| && (forall i :: 0 <= i < |q| ==> a.still(i))
    ensures var q := Queue(EnvOf(es), |es|);
            var known, mine := Known(q, trid), set i | 0 <= i < |q| && q[i].pid == p;
            && AnswersIn(Names(q), trid(Names(q)), known)
            && (forall i :: 0 <= i < |q| ==> q[i].tmp in known)
            && (Reported(es, trid, a, p) <==>
                |mine| >= 10 && 100 * |set i | i in mine && q[i].tmp in known && known[q[i].tmp]| <= 80 * |mine|)
  {
    var q := Queue(EnvOf(es), |es|);
    var known := Known(q, trid);
    KnownMeans(q, trid);
    forall i | 0 <= i < |q|
      ensures q[i].tmp in known && Graded(q, known, a, i)
    {
      assert Names(q)[i] == q[i].tmp;
      GradedMeans(q, known, a, i);
    }
    ReportedMeans(es, trid, a, p);
    assert GradedFor(q, known, a, p) == set i | 0 <= i < |q| && q[i].pid == p;
  }

  // With different paths the answer about the i-th file is the i-th answer.
  lemma AnswerInOrder(files: seq<FileInfo>, trid: seq<Hash> -> Report, i: nat)
    requires (forall paths :: |trid(paths)| <= |paths|) && |files| >= 10 && i < |trid(Names(files))|
    requires Distinct(Names(files))
    ensures files[i].tmp in Known(files, trid) && Known(files, trid)[files[i].tmp] == trid(Names(files))[i].1
  {
    DistinctIndexed(Names(files), trid(Names(files)), i);
    assert Names(files)[i] == files[i].tmp;
  }

  // When every file is answered in order, the answers recorded for a process's files are those at their places.
  lemma TrueInOrder(files: seq<FileInfo>, trid: seq<Hash> -> Report, mine: set<nat>)
    requires (forall paths :: |trid(paths)| <= |paths|) && |files| >= 10 && Distinct(Names(files))
    requires |trid(Names(files))| == |files|
    requires forall i :: i in mine ==> i < |files|
    ensures (set i | i in mine && files[i].tmp in Known(files, trid) && Known(files, trid)[files[i].tmp]) ==
            set i | i in mine && 0 <= i < |trid(Names(files))| && trid(Names(files))[i].1
  {
    forall i | i in mine
      ensures files[i].tmp in Known(files, trid) && Known(files, trid)[files[i].tmp] == trid(Names(files))[i].1
    {
      AnswerInOrder(files, trid, i);
    }
  }

  // End to end: with every queued file present and answered in order, p is reported iff at least ten files are
  // queued for it and at most 80 percent of the answers at their places are true.
  lemma AllAnsweredInOrder(es: seq<FileIo>, trid: seq<Hash> -> Report, a: Answers, p: Pid)
    requires Sized(es) && forall paths :: |trid(paths)| <= |paths|
    requires var q := Queue(EnvOf(es), |es|);
             && |q| >= 10 && |trid(Names(q))| == |q| && (forall i :: 0 <= i < |q| ==> a.still(i))
             && Distinct(Names(q))
    ensures var q := Queue(EnvOf(es), |es|);
            var output, mine := trid(Names(q)), set i | 0 <= i < |q| && q[i].pid == p;
            Reported(es, trid, a, p) <==>
            |mine| >= 10 && 100 * |set i | i in mine && 0 <= i < |output| && output[i].1| <= 80 * |mine|
  {
    var q := Queue(EnvOf(es), |es|);
    AllAnswered(es, trid, a, p);
    TrueInOrder(q, trid, set i | 0 <= i < |q| && q[i].pid == p);
  }
}

/** Where a run starts after the checkpoints are read, and when that skips nothing. */
module RestartPoints {
  import opened Prelude
  import opened ProcessorStatus

  // ---------------------------------------------------------------- default mode

  /** A restart loses nothing for a table when it begins no later than the version after that
      table's checkpoint, or at the initial version when the table has none. */
  ghost predicate Resumes(rows: map<string, int>, name: string, initial: nat, start: nat) {
    start <= initial || (name in rows && start <= rows[name] + 1)
  }

  /** A row that the minimum takes into account. */
  ghost predicate Readable(rows: map<string, int>, names: seq<string>, unreadable: set<string>, n: string) {
    n in names && n in rows && n !in unreadable
  }

  ghost predicate NoneReadable(rows: map<string, int>, names: seq<string>, unreadable: set<string>) {
    forall n :: !Readable(rows, names, unreadable, n)
  }

  /** Some readable row lies no more than `slack` beyond every table's row, and every table has one. */
  ghost predicate ReadsLeast(rows: map<string, int>, names: seq<string>, unreadable: set<string>, slack: nat) {
    exists m :: Readable(rows, names, unreadable, m) && forall n :: n in names ==> n in rows && rows[m] <= rows[n] + slack
  }

  /** No row can be read, or some readable row does not lie beyond the initial version, or every
      table has a row and some readable one is at most one beyond each of them. */
  ghost predicate SafeRestart(rows: map<string, int>, names: seq<string>, unreadable: set<string>, initial: nat) {
    || NoneReadable(rows, names, unreadable)
    || (exists n :: Readable(rows, names, unreadable, n) && rows[n] <= initial)
    || ReadsLeast(rows, names, unreadable, 1)
  }

  /** What has been stored are versions. */
  ghost predicate InRange(rows: map<string, int>, names: seq<string>) {
    forall n :: n in names && n in rows ==> 0 <= rows[n] < TWO_63
  }

  /** The minimum, in terms of the stored numbers. */
  lemma LeastReadable(rows: map<string, int>, names: seq<string>, unreadable: set<string>)
    requires InRange(rows, names)
    ensures var least := MinVersion(rows, names, unreadable);
            && (least.None? <==> NoneReadable(rows, names, unreadable))
            && (least.Some? ==> exists m :: Readable(rows, names, unreadable, m) && rows[m] == least.value)
            && (forall n :: Readable(rows, names, unreadable, n) ==> least.Some? && least.value <= rows[n])
  {
    MinVersionIsLeast(rows, names, unreadable);
    forall n | Readable(rows, names, unreadable, n)
      ensures AsU64(rows[n]) == rows[n]
    {
    }
    var least := MinVersion(rows, names, unreadable);
    if least.Some? {
      var n :| n in names && n in rows && n !in unreadable && AsU64(rows[n]) == least.value;
      assert Readable(rows, names, unreadable, n);
    }
  }

  /** Whichever rows cannot be read, that condition is exactly when a restart in default mode skips
      nothing for any table. */
  lemma RestartSafeExactly(rows: map<string, int>, names: seq<string>, unreadable: set<string>, initial: nat)
    requires InRange(rows, names)
    ensures SafeRestart(rows, names, unreadable, initial) <==>
            forall n :: n in names ==> Resumes(rows, n, initial, DefaultStart(rows, names, unreadable, initial))
  {
    LeastReadable(rows, names, unreadable);
  }

  /** When every row is read the condition is that all tables have a row, or none has, or some row
      does not lie beyond the initial version. */
  lemma SafeWhenAllRead(rows: map<string, int>, names: seq<string>, initial: nat)
    requires InRange(rows, names)
    ensures SafeRestart(rows, names, {}, initial) <==>
            || (forall n :: n in names ==> n in rows)
            || (forall n :: n in names ==> n !in rows)
            || (exists n :: n in names && n in rows && rows[n] <= initial)
  {
    LeastReadable(rows, names, {});
    if forall n :: n in names ==> n in rows {
      if !NoneReadable(rows, names, {}) {
        var m :| Readable(rows, names, {}, m) && rows[m] == MinVersion(rows, names, {}).value;
        assert forall n :: n in names ==> Readable(rows, names, {}, n);
      }
    }
    assert (forall n :: n in names ==> n !in rows) <==> NoneReadable(rows, names, {}) by {
      assert forall n :: Readable(rows, names, {}, n) <==> n in names && n in rows;
    }
    if n :| n in names && n in rows && rows[n] <= initial {
      assert Readable(rows, names, {}, n);
    }
  }

  /** A table whose row is there but not read is skipped ahead of exactly when the least readable
      row lies beyond both the initial version and the version after its own row. */
  lemma UnreadIsSkippedExactly(rows: map<string, int>, names: seq<string>, unreadable: set<string>, initial: nat, name: string)
    requires InRange(rows, names) && name in names && name in rows && name in unreadable
    ensures !Resumes(rows, name, initial, DefaultStart(rows, names, unreadable, initial)) <==>
            && !NoneReadable(rows, names, unreadable)
            && forall m :: Readable(rows, names, unreadable, m) ==> rows[m] > initial && rows[m] > rows[name] + 1
  {
    LeastReadable(rows, names, unreadable);
  }

  /** An instance: with the row at 5 unread the run starts at 90. */
  lemma FailedReadSkipsAhead()
    ensures var rows := map["a" := 5, "b" := 90];
            && SafeRestart(rows, ["a", "b"], {}, 0)
            && !SafeRestart(rows, ["a", "b"], {"a"}, 0)
            && !Resumes(rows, "a", 0, DefaultStart(rows, ["a", "b"], {"a"}, 0))
  {
    var rows: map<string, int> := map["a" := 5, "b" := 90];
    var names := ["a", "b"];
    assert "a" == names[0] && "b" == names[1];
    SafeWhenAllRead(rows, names, 0);
    UnreadIsSkippedExactly(rows, names, {"a"}, 0, "a");
    assert Readable(rows, names, {"a"}, "b");
    RestartSafeExactly(rows, names, {"a"}, 0);
  }

  /** Rows that stay readable and only grow never move the restart point back. */
  lemma RestartNeverMovesBack(before: map<string, int>, after: map<string, int>, names: seq<string>, unreadable: set<string>, initial: nat)
    requires InRange(before, names) && InRange(after, names) && !NoneReadable(after, names, unreadable)
    requires forall n :: Readable(after, names, unreadable, n) ==> n in before && before[n] <= after[n]
    ensures DefaultStart(before, names, unreadable, initial) <= DefaultStart(after, names, unreadable, initial)
  {
    LeastReadable(before, names, unreadable);
    LeastReadable(after, names, unreadable);
    var m :| Readable(after, names, unreadable, m) && after[m] == MinVersion(after, names, unreadable).value;
    assert Readable(before, names, unreadable, m);
  }

  // ---------------------------------------------------------------- both kinds of job

  /** The jobs that keep checkpoints.  A backfill row is complete when it has reached `ending`. */
  datatype Job = DefaultJob | BackfillJob(ending: Option<nat>)

  /** Where a run of a job starts, on the versions stored for it. */
  function StartPoint(job: Job, rows: map<string, int>, names: seq<string>, unreadable: set<string>, initial: nat): (r: nat) {
    match job
    case DefaultJob => DefaultStart(rows, names, unreadable, initial)
    case BackfillJob(ending) =>
      var least := MinVersion(rows, names, unreadable);
      if least.None? then initial
      else if ending.Some? && least.value >= ending.value then ending.value
      else least.value + 1
  }

  /** Every readable row has reached the ending version. */
  ghost predicate ReadsComplete(rows: map<string, int>, names: seq<string>, unreadable: set<string>, ending: Option<nat>) {
    ending.Some? && forall n :: Readable(rows, names, unreadable, n) ==> rows[n] >= ending.value
  }

  ghost predicate SafeStart(job: Job, rows: map<string, int>, names: seq<string>, unreadable: set<string>, initial: nat) {
    match job
    case DefaultJob => SafeRestart(rows, names, unreadable, initial)
    case BackfillJob(ending) =>
      if NoneReadable(rows, names, unreadable) then true
      else if ReadsComplete(rows, names, unreadable, ending) then
        ending.value <= initial || forall n :: n in names ==> n in rows && ending.value <= rows[n] + 1
      else (exists n :: Readable(rows, names, unreadable, n) && rows[n] < initial) || ReadsLeast(rows, names, unreadable, 0)
  }

  /** For either kind of job: the exact condition for a start that skips nothing for any table. */
  lemma StartSafeExactly(job: Job, rows: map<string, int>, names: seq<string>, unreadable: set<string>, initial: nat)
    requires InRange(rows, names)
    ensures SafeStart(job, rows, names, unreadable, initial) <==>
            forall n :: n in names ==> Resumes(rows, n, initial, StartPoint(job, rows, names, unreadable, initial))
  {
    LeastReadable(rows, names, unreadable);
    if job.DefaultJob? {
      RestartSafeExactly(rows, names, unreadable, initial);
    }
  }

  /** Some readable row lies so low that a run from it starts before `start`. */
  ghost predicate ReadsBehind(job: Job, rows: map<string, int>, names: seq<string>, unreadable: set<string>, start: nat) {
    exists m :: Readable(rows, names, unreadable, m) && rows[m] + (if job.DefaultJob? then 0 else 1) < start
  }

  /** When a start lies before a version `start`: with nothing readable, when the initial version
      does; with all readable rows complete, when the ending version does; else when the initial
      version (in default mode) and some readable row do. */
  lemma MovesBackExactly(job: Job, rows: map<string, int>, names: seq<string>, unreadable: set<string>, initial: nat, start: nat)
    requires InRange(rows, names)
    ensures StartPoint(job, rows, names, unreadable, initial) < start <==>
            if NoneReadable(rows, names, unreadable) then initial < start
            else if job.BackfillJob? && ReadsComplete(rows, names, unreadable, job.ending) then job.ending.value < start
            else (job.DefaultJob? ==> initial < start) && ReadsBehind(job, rows, names, unreadable, start)
  {
    LeastReadable(rows, names, unreadable);
  }

  /** An instance: a run that had started at 5 is followed by one that starts at 0, because no
      checkpoint could be read. */
  lemma FailedReadsMoveBack()
    ensures var rows := map["a" := 5, "b" := 90];
            && DefaultStart(rows, ["a", "b"], {}, 0) == 5
            && SafeRestart(rows, ["a", "b"], {"a", "b"}, 0)
            && DefaultStart(rows, ["a", "b"], {"a", "b"}, 0) == 0
  {
    var rows: map<string, int>, names := map["a" := 5, "b" := 90], ["a", "b"];
    assert names[0] == "a" && names[1] == "b" && "a"[0] != "b"[0];
    LeastReadable(rows, names, {});
    assert Readable(rows, names, {}, "a") && Readable(rows, names, {}, "b");
    LeastReadable(rows, names, {"a", "b"});
  }

  /** A single-table processor that has saved version `v` starts its next default run at `v`, not
      after it: that transaction is delivered again. */
  lemma DefaultRestartRepeats(status: map<string, StatusRow>, name: string, initial: nat, v: nat, ts: Option<int>)
    requires initial <= v < TWO_63 && (name in status ==> status[name].lastSuccessVersion <= v)
    ensures StartVersion(status[name := SavedStatus(Get(status, name), v, ts)], map[], Default(initial), [name], {}) == Some(v)
  {
    var after := status[name := SavedStatus(Get(status, name), v, ts)];
    SingleName(Versions(after), map[], "", name);
  }

  // ---------------------------------------------------------------- backfill mode

  /** The versions that a backfill has stored for its tables. */
  function JobRows(backfill: map<string, BackfillRow>, id: string, names: seq<string>): (r: map<string, int>)
    ensures forall n :: n in r <==> n in names && Alias(n, id) in backfill
  {
    map n | n in names && Alias(n, id) in backfill :: backfill[Alias(n, id)].lastSuccessVersion
  }

  ghost predicate RowComplete(backfill: map<string, BackfillRow>, id: string, n: string) {
    Alias(n, id) in backfill && backfill[Alias(n, id)].status == Complete
  }

  /** The rows found are those of the readable tables. */
  lemma {:induction false} FoundAreReadable(backfill: map<string, BackfillRow>, id: string, names: seq<string>, unreadable: set<string>)
    ensures forall a :: a in Found(backfill, id, names, unreadable) <==>
              exists n :: n in names && n !in unreadable && Alias(n, id) in backfill && a == Alias(n, id)
  {
    if names != [] {
      var k := |names| - 1;
      assert names == names[..k] + [names[k]];
      FoundAreReadable(backfill, id, names[..k], unreadable);
    }
  }

  /** All readable rows of the job are complete. */
  ghost predicate ReadComplete(backfill: map<string, BackfillRow>, id: string, names: seq<string>, unreadable: set<string>) {
    forall n :: Readable(JobRows(backfill, id, names), names, unreadable, n) ==> RowComplete(backfill, id, n)
  }

  /** What the rows found say about the tables: whether there are any, whether all are complete, and
      the least of them. */
  lemma FoundByTable(backfill: map<string, BackfillRow>, id: string, names: seq<string>, unreadable: set<string>)
    requires InRange(JobRows(backfill, id, names), names)
    ensures var rows, found := JobRows(backfill, id, names), Found(backfill, id, names, unreadable);
            && (found == [] <==> MinVersion(rows, names, unreadable).None?)
            && (AllComplete(backfill, found) <==> ReadComplete(backfill, id, names, unreadable))
            && MinVersion(BackfillVersions(backfill), found, {}) == MinVersion(rows, names, unreadable)
  {
    var rows, found := JobRows(backfill, id, names), Found(backfill, id, names, unreadable);
    FoundAreReadable(backfill, id, names, unreadable);
    forall n
      ensures Readable(rows, names, unreadable, n) ==> Alias(n, id) in found && rows[n] == backfill[Alias(n, id)].lastSuccessVersion
    {
    }
    assert found != [] ==> found[0] in found;
    forall a | a in found
      ensures FromTable(rows, names, unreadable, id, a)
    {
      var n :| n in names && n !in unreadable && Alias(n, id) in backfill && a == Alias(n, id);
      assert Readable(rows, names, unreadable, n);
    }
    LeastReadable(rows, names, unreadable);
    FoundAtMost(backfill, id, names, unreadable, found, rows);
    FoundAtLeast(backfill, id, names, unreadable, found, rows);
  }

  ghost predicate FromTable(rows: map<string, int>, names: seq<string>, unreadable: set<string>, id: string, a: string) {
    exists n :: Readable(rows, names, unreadable, n) && a == Alias(n, id)
  }

  ghost predicate AtMost(a: Option<nat>, b: Option<nat>) {
    b.Some? ==> a.Some? && a.value <= b.value
  }

  lemma FoundAtMost(backfill: map<string, BackfillRow>, id: string, names: seq<string>, unreadable: set<string>, found: seq<string>, rows: map<string, int>)
    requires InRange(rows, names) && rows == JobRows(backfill, id, names)
    requires forall n :: Readable(rows, names, unreadable, n) ==> Alias(n, id) in found
    ensures AtMost(MinVersion(BackfillVersions(backfill), found, {}), MinVersion(rows, names, unreadable))
  {
    MinVersionIsLeast(BackfillVersions(backfill), found, {});
    LeastReadable(rows, names, unreadable);
    var least := MinVersion(rows, names, unreadable);
    if least.Some? {
      var n :| Readable(rows, names, unreadable, n) && rows[n] == least.value;
      assert Alias(n, id) in found && BackfillVersions(backfill)[Alias(n, id)] == rows[n];
    }
  }

  lemma FoundAtLeast(backfill: map<string, BackfillRow>, id: string, names: seq<string>, unreadable: set<string>, found: seq<string>, rows: map<string, int>)
    requires InRange(rows, names) && rows == JobRows(backfill, id, names)
    requires forall a :: a in found ==> FromTable(rows, names, unreadable, id, a)
    ensures AtMost(MinVersion(rows, names, unreadable), MinVersion(BackfillVersions(backfill), found, {}))
  {
    var all := BackfillVersions(backfill);
    MinVersionIsLeast(all, found, {});
    LeastReadable(rows, names, unreadable);
    var least := MinVersion(all, found, {});
    if least.Some? {
      var a :| a in found && a in all && AsU64(all[a]) == least.value;
      var n :| Readable(rows, names, unreadable, n) && a == Alias(n, id);
      assert rows[n] == all[a] && 0 <= rows[n] < TWO_63;
    }
  }

  lemma StartFromFound(status: map<string, StatusRow>, backfill: map<string, BackfillRow>, mode: Mode, names: seq<string>, unreadable: set<string>,
                       found: seq<string>, complete: bool, least: Option<nat>)
    requires mode.Backfill? && !mode.overwrite && found == Found(backfill, mode.id, names, unreadable)
    requires (found == [] <==> least.None?) && (AllComplete(backfill, found) <==> complete)
    requires MinVersion(BackfillVersions(backfill), found, {}) == least
    ensures StartVersion(status, backfill, mode, names, unreadable) ==
            if least.None? then Some(mode.initial) else if complete then mode.ending else Some(least.value + 1)
  {
  }

  lemma FoundFor(backfill: map<string, BackfillRow>, id: string, names: seq<string>, unreadable: set<string>, complete: bool, least: Option<nat>)
    returns (found: seq<string>)
    requires InRange(JobRows(backfill, id, names), names)
    requires complete == ReadComplete(backfill, id, names, unreadable) && least == MinVersion(JobRows(backfill, id, names), names, unreadable)
    ensures found == Found(backfill, id, names, unreadable) && (found == [] <==> least.None?)
    ensures AllComplete(backfill, found) <==> complete
    ensures MinVersion(BackfillVersions(backfill), found, {}) == least
  {
    FoundByTable(backfill, id, names, unreadable);
    found := Found(backfill, id, names, unreadable);
  }

  /** The start of a backfill in terms of its tables. */
  lemma BackfillStart(status: map<string, StatusRow>, backfill: map<string, BackfillRow>, mode: Mode, names: seq<string>, unreadable: set<string>)
    requires mode.Backfill? && !mode.overwrite && InRange(JobRows(backfill, mode.id, names), names)
    ensures var least := MinVersion(JobRows(backfill, mode.id, names), names, unreadable);
            StartVersion(status, backfill, mode, names, unreadable) ==
            if least.None? then Some(mode.initial)
            else if ReadComplete(backfill, mode.id, names, unreadable) then mode.ending
            else Some(least.value + 1)
  {
    var found := FoundFor(backfill, mode.id, names, unreadable, ReadComplete(backfill, mode.id, names, unreadable),
                          MinVersion(JobRows(backfill, mode.id, names), names, unreadable));
    StartFromFound(status, backfill, mode, names, unreadable, found, ReadComplete(backfill, mode.id, names, unreadable),
                   MinVersion(JobRows(backfill, mode.id, names), names, unreadable));
  }

  /** An incomplete backfill resumes right after the least version that could be read.  That skips
      nothing for any table exactly when some readable row lies before the initial version or the
      least readable row is least among all tables, each of which has one. */
  lemma BackfillResumesAfterLeast(status: map<string, StatusRow>, backfill: map<string, BackfillRow>, mode: Mode,
                                  names: seq<string>, unreadable: set<string>)
    requires mode.Backfill? && !mode.overwrite
    requires InRange(JobRows(backfill, mode.id, names), names)
    requires exists n :: Readable(JobRows(backfill, mode.id, names), names, unreadable, n) && !RowComplete(backfill, mode.id, n)
    ensures var rows, start := JobRows(backfill, mode.id, names), StartVersion(status, backfill, mode, names, unreadable);
            && start.Some?
            && (forall n :: Readable(rows, names, unreadable, n) ==> start.value <= rows[n] + 1)
            && (exists n :: Readable(rows, names, unreadable, n) && start.value == rows[n] + 1)
            && ((forall n :: n in names ==> Resumes(rows, n, mode.initial, start.value)) <==>
                (exists n :: Readable(rows, names, unreadable, n) && rows[n] + 1 <= mode.initial) || ReadsLeast(rows, names, unreadable, 0))
  {
    BackfillStart(status, backfill, mode, names, unreadable);
    LeastReadable(JobRows(backfill, mode.id, names), names, unreadable);
  }

  lemma ResumeSafeWhenAllRead(rows: map<string, int>, names: seq<string>)
    requires InRange(rows, names) && !NoneReadable(rows, names, {})
    ensures ReadsLeast(rows, names, {}, 0) <==> forall n :: n in names ==> n in rows
  {
    LeastReadable(rows, names, {});
    if forall n :: n in names ==> n in rows {
      var m :| Readable(rows, names, {}, m) && rows[m] == MinVersion(rows, names, {}).value;
      forall n | n in names
        ensures rows[m] <= rows[n]
      {
        assert Readable(rows, names, {}, n);
      }
    }
  }

  /** When all rows are read, an incomplete backfill skips nothing exactly when every table has a row
      or some row lies before the initial version. */
  lemma BackfillSafeWhenAllRead(status: map<string, StatusRow>, backfill: map<string, BackfillRow>, mode: Mode, names: seq<string>)
    requires mode.Backfill? && !mode.overwrite
    requires InRange(JobRows(backfill, mode.id, names), names)
    requires exists n :: n in names && Alias(n, mode.id) in backfill && !RowComplete(backfill, mode.id, n)
    ensures var rows, start := JobRows(backfill, mode.id, names), StartVersion(status, backfill, mode, names, {});
            && start.Some?
            && ((forall n :: n in names ==> Resumes(rows, n, mode.initial, start.value)) <==>
                (forall n :: n in names ==> n in rows) || exists n :: n in names && n in rows && rows[n] + 1 <= mode.initial)
  {
    var rows := JobRows(backfill, mode.id, names);
    var n :| n in names && Alias(n, mode.id) in backfill && !RowComplete(backfill, mode.id, n);
    assert Readable(rows, names, {}, n);
    BackfillResumesAfterLeast(status, backfill, mode, names, {});
    ResumeSafeWhenAllRead(rows, names);
    if m :| m in names && m in rows && rows[m] + 1 <= mode.initial {
      assert Readable(rows, names, {}, m);
    }
  }

  /** Completion is judged on the rows that can be read: once those are complete the run starts at
      its ending version.  All tables are then complete exactly when every one has a row and those
      that were not read are complete too. */
  lemma CompletionIgnoresMissingRows(status: map<string, StatusRow>, backfill: map<string, BackfillRow>, mode: Mode,
                                     names: seq<string>, unreadable: set<string>)
    requires mode.Backfill? && !mode.overwrite
    requires InRange(JobRows(backfill, mode.id, names), names) && !NoneReadable(JobRows(backfill, mode.id, names), names, unreadable)
    requires ReadComplete(backfill, mode.id, names, unreadable)
    ensures StartVersion(status, backfill, mode, names, unreadable) == mode.ending
    ensures (forall n :: n in names ==> RowComplete(backfill, mode.id, n)) <==>
            forall n :: n in names ==> Alias(n, mode.id) in backfill && (n in unreadable ==> RowComplete(backfill, mode.id, n))
  {
    var rows := JobRows(backfill, mode.id, names);
    LeastReadable(rows, names, unreadable);
    BackfillStart(status, backfill, mode, names, unreadable);
    forall n | n in names && Alias(n, mode.id) in backfill && n !in unreadable
      ensures RowComplete(backfill, mode.id, n)
    {
      assert Readable(rows, names, unreadable, n);
    }
  }

  /** An instance: table "a" has reached 10, table "b" never saved anything, and the job is over. */
  lemma MissingTableIsNeverBackfilled()
    ensures var mode := Backfill("job", 0, Some(10), false);
            var backfill := map[Alias("a", "job") := BackfillRow(Complete, 10, None, 0, Some(10))];
            && StartVersion(map[], backfill, mode, ["a", "b"], {}) == Some(10)
            && !RowComplete(backfill, "job", "b") && !Resumes(JobRows(backfill, "job", ["a", "b"]), "b", 0, 10)
  {
    var mode, names := Backfill("job", 0, Some(10), false), ["a", "b"];
    var backfill := map[Alias("a", "job") := BackfillRow(Complete, 10, None, 0, Some(10))];
    assert names[0] == "a" && "a"[0] != "b"[0];
    if Alias("b", "job") == Alias("a", "job") {
      AliasInjective("b", "a", "job");
    }
    assert Readable(JobRows(backfill, "job", names), names, {}, "a");
    CompletionIgnoresMissingRows(map[], backfill, mode, names, {});
  }

  /** An instance: table "a" is at 7, and "b", which has no row, is not read before version 8. */
  lemma MissingTableIsSkipped()
    ensures var mode := Backfill("job", 0, Some(10), false);
            var backfill := map[Alias("a", "job") := BackfillRow(InProgress, 7, None, 0, Some(10))];
            && StartVersion(map[], backfill, mode, ["a", "b"], {}) == Some(8)
            && !Resumes(JobRows(backfill, "job", ["a", "b"]), "b", 0, 8)
  {
    var mode, names := Backfill("job", 0, Some(10), false), ["a", "b"];
    var backfill := map[Alias("a", "job") := BackfillRow(InProgress, 7, None, 0, Some(10))];
    assert names[0] == "a" && "a"[0] != "b"[0];
    if Alias("b", "job") == Alias("a", "job") {
      AliasInjective("b", "a", "job");
    }
    assert Readable(JobRows(backfill, "job", names), names, {}, "a");
    BackfillResumesAfterLeast(map[], backfill, mode, names, {});
  }

  /** The rows of a job say `Complete` exactly when they have reached its ending version, as
      `BackfillRowIsMaximum` shows. */
  ghost predicate CompleteMeansReached(backfill: map<string, BackfillRow>, id: string, names: seq<string>, ending: Option<nat>) {
    forall n :: n in names && Alias(n, id) in backfill ==>
      (RowComplete(backfill, id, n) <==> ending.Some? && backfill[Alias(n, id)].lastSuccessVersion >= ending.value)
  }

  lemma CompleteIsReached(backfill: map<string, BackfillRow>, id: string, names: seq<string>, unreadable: set<string>, ending: Option<nat>)
    requires CompleteMeansReached(backfill, id, names, ending) && InRange(JobRows(backfill, id, names), names)
    ensures var least := MinVersion(JobRows(backfill, id, names), names, unreadable);
            least.Some? ==> (ReadComplete(backfill, id, names, unreadable) <==> ending.Some? && least.value >= ending.value)
  {
    var rows := JobRows(backfill, id, names);
    LeastReadable(rows, names, unreadable);
    forall n | Readable(rows, names, unreadable, n)
      ensures RowComplete(backfill, id, n) <==> ending.Some? && rows[n] >= ending.value
    {
    }
  }

  /** The start of a backfill, on the versions stored for its tables. */
  lemma BackfillStartsAtPoint(status: map<string, StatusRow>, backfill: map<string, BackfillRow>, mode: Mode,
                              names: seq<string>, unreadable: set<string>)
    requires mode.Backfill? && !mode.overwrite && CompleteMeansReached(backfill, mode.id, names, mode.ending)
    requires InRange(JobRows(backfill, mode.id, names), names)
    ensures StartVersion(status, backfill, mode, names, unreadable) ==
            Some(StartPoint(BackfillJob(mode.ending), JobRows(backfill, mode.id, names), names, unreadable, mode.initial))
  {
    BackfillStart(status, backfill, mode, names, unreadable);
    CompleteIsReached(backfill, mode.id, names, unreadable, mode.ending);
  }

  // ---------------------------------------------------------------- starting over, and testing

  /** What a start that overwrites leaves of a row: in progress from version 0, with the configured bounds
      or, without an ending version, up to what default mode has reached. */
  ghost predicate StartedOver(row: BackfillRow, mode: Mode, reached: Option<nat>)
    requires mode.Backfill?
  {
    && row.status == InProgress && row.lastSuccessVersion == 0 && row.lastTimestamp == None
    && row.startVersion == AsI64(mode.initial)
    && row.endVersion == (if mode.ending.Some? then Some(AsI64(mode.ending.value)) else if reached.Some? then Some(AsI64(reached.value)) else None)
  }

  /** A backfill that overwrites starts at its initial version whatever is stored, and the rows of all
      tables that could be read start over; all other rows stay. */
  lemma OverwriteStartsOver(status: map<string, StatusRow>, was: map<string, BackfillRow>, now: map<string, BackfillRow>, mode: Mode,
                            names: seq<string>, unreadable: set<string>)
    requires mode.Backfill? && mode.overwrite && RowsAtStart(now, was, status, mode, names, unreadable)
    ensures StartVersion(status, was, mode, names, unreadable) == Some(mode.initial)
    ensures now.Keys == was.Keys
    ensures forall n :: n in names && n !in unreadable && Alias(n, mode.id) in was ==>
              StartedOver(now[Alias(n, mode.id)], mode, MinVersion(Versions(status), names, unreadable))
    ensures forall a :: a in was && (forall n :: n in names && n !in unreadable ==> a != Alias(n, mode.id)) ==> now[a] == was[a]
  {
    FoundAreReadable(was, mode.id, names, unreadable);
  }

  /** In testing mode the stored rows neither matter nor change. */
  lemma TestingStartsAsTold(status: map<string, StatusRow>, backfill: map<string, BackfillRow>, start: nat, ending: Option<nat>,
                            names: seq<string>, unreadable: set<string>)
    ensures StartVersion(status, backfill, Testing(start, ending), names, unreadable) == Some(start)
    ensures RowsAtStart(backfill, backfill, status, Testing(start, ending), names, unreadable)
  {
  }
}

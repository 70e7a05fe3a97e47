/** Crash safety of the Parquet pipeline, for default runs and for backfills. */
module CrashSafety {
  import opened Prelude
  import opened ParquetBuffers
  import opened ProcessorStatus
  import opened RestartPoints
  import opened VersionTracker
  import opened Pipeline

  // ---------------------------------------------------------------- what it means to be uploaded

  /** The rows are one uploaded object, or there are none to upload. */
  ghost predicate Landed(objects: seq<seq<Row>>, rows: seq<Row>) {
    rows == [] || rows in objects
  }

  /** Version `v` of table `t` lies in a range of versions whose rows were uploaded together. */
  ghost predicate Covered(cfg: Config, objects: seq<seq<Row>>, t: Table, v: nat) {
    exists lo: nat, hi: nat :: lo <= v < hi && Landed(objects, Rows(cfg, t, lo, hi))
  }

  ghost predicate CoveredRange(cfg: Config, objects: seq<seq<Row>>, t: Table, lo: nat, hi: nat) {
    forall v: nat :: lo <= v < hi ==> Covered(cfg, objects, t, v)
  }

  lemma CoveredGrows(cfg: Config, a: seq<seq<Row>>, b: seq<seq<Row>>, t: Table, lo: nat, hi: nat)
    requires CoveredRange(cfg, a, t, lo, hi)
    requires forall o :: o in a ==> o in b
    ensures CoveredRange(cfg, b, t, lo, hi)
  {
    forall v: nat | lo <= v < hi
      ensures Covered(cfg, b, t, v)
    {
      assert Covered(cfg, a, t, v);
      var l: nat, h: nat :| l <= v < h && Landed(a, Rows(cfg, t, l, h));
      assert Landed(b, Rows(cfg, t, l, h));
    }
  }

  lemma {:induction false} RowsContain(cfg: Config, t: Table, lo: nat, hi: nat, v: nat, r: Row)
    requires lo <= v < hi && r in cfg.ledger(t, v)
    ensures r in Rows(cfg, t, lo, hi)
    decreases hi
  {
    if v < hi - 1 {
      RowsContain(cfg, t, lo, hi - 1, v, r);
    }
  }

  /** Covered versions have every one of their rows in the bucket. */
  lemma CoveredHasRows(cfg: Config, objects: seq<seq<Row>>, t: Table, v: nat, r: Row)
    requires Covered(cfg, objects, t, v) && r in cfg.ledger(t, v)
    ensures exists o :: o in objects && r in o
  {
    var lo: nat, hi: nat :| lo <= v < hi && Landed(objects, Rows(cfg, t, lo, hi));
    RowsContain(cfg, t, lo, hi, v, r);
  }

  // ---------------------------------------------------------------- the invariant, per table

  /** The buffer holds exactly the ledger's rows for its version range. */
  ghost predicate BufferExact(cfg: Config, t: Table, b: Buffer) {
    match b.meta
    case None => b.rows == [] && b.size == 0
    case Some(m) => m.startVersion <= m.endVersion < TWO_63 && b.size > 0 && b.rows == Rows(cfg, t, m.startVersion, m.endVersion + 1)
  }

  ghost predicate RangeCovered(cfg: Config, t: Table, objects: seq<seq<Row>>, m: Metadata) {
    m.startVersion <= m.endVersion < TWO_63 && CoveredRange(cfg, objects, t, m.startVersion, m.endVersion + 1)
  }

  /** A stored checkpoint only claims what is in the bucket. */
  ghost predicate Durable(cfg: Config, t: Table, v: View) {
    v.status.Some? ==>
      && 0 <= v.status.value.lastSuccessVersion < TWO_63
      && CoveredRange(cfg, v.objects, t, cfg.initial, v.status.value.lastSuccessVersion + 1)
  }

  /** Until something is tracked, the oldest range in flight starts where the run started. */
  ghost predicate StartsAt(v: View, start: nat, received: bool) {
    if v.queue != [] then v.queue[0].startVersion == start
    else if v.buffer.meta.Some? then v.buffer.meta.value.startVersion == start
    else !received
  }

  ghost predicate Live(cfg: Config, t: Table, v: View, start: nat, received: bool) {
    && BufferExact(cfg, t, v.buffer)
    && (forall q :: q in v.queue ==> RangeCovered(cfg, t, v.objects, q))
    && CoveredRange(cfg, v.objects, t, cfg.initial, start)
    && (v.last.Some? ==> start <= v.last.value.endVersion < TWO_63 && CoveredRange(cfg, v.objects, t, cfg.initial, v.last.value.endVersion + 1))
    && (v.last.None? ==> StartsAt(v, start, received))
  }

  /** Storing more objects keeps everything that was covered. */
  lemma MoreObjects(cfg: Config, t: Table, v: View, rows: seq<Row>, start: nat, received: bool)
    ensures Durable(cfg, t, v) ==> Durable(cfg, t, v.(objects := AddObject(v.objects, rows)))
    ensures Live(cfg, t, v, start, received) ==> Live(cfg, t, v.(objects := AddObject(v.objects, rows)), start, received)
  {
    AddObjectMembers(v.objects, rows);
    var more := AddObject(v.objects, rows);
    if Durable(cfg, t, v) && v.status.Some? {
      CoveredGrows(cfg, v.objects, more, t, cfg.initial, v.status.value.lastSuccessVersion + 1);
    }
    if Live(cfg, t, v, start, received) {
      CoveredGrows(cfg, v.objects, more, t, cfg.initial, start);
      if v.last.Some? {
        CoveredGrows(cfg, v.objects, more, t, cfg.initial, v.last.value.endVersion + 1);
      }
      forall q | q in v.queue
        ensures RangeCovered(cfg, t, more, q)
      {
        assert RangeCovered(cfg, t, v.objects, q);
        CoveredGrows(cfg, v.objects, more, t, q.startVersion, q.endVersion + 1);
      }
    }
  }

  /** Flushing a buffer puts its range, now covered, at the end of the queue. */
  lemma FlushLive(cfg: Config, t: Table, v: View, m: Metadata, start: nat, received: bool)
    requires Live(cfg, t, v, start, received) && v.buffer.meta.Some?
    requires m.startVersion == v.buffer.meta.value.startVersion && m.endVersion == v.buffer.meta.value.endVersion
    ensures Live(cfg, t, v.(buffer := EMPTY_BUFFER, objects := AddObject(v.objects, v.buffer.rows), queue := v.queue + [m]), start, received)
  {
    MoreObjects(cfg, t, v, v.buffer.rows, start, received);
    AddObjectMembers(v.objects, v.buffer.rows);
    var objects := AddObject(v.objects, v.buffer.rows);
    assert Landed(objects, Rows(cfg, t, m.startVersion, m.endVersion + 1));
    assert RangeCovered(cfg, t, objects, m);
    assert v.queue == [] || (v.queue + [m])[0] == v.queue[0];
  }

  /** Taking a batch into a buffer it fits keeps the invariant. */
  lemma AppendLive(cfg: Config, t: Table, v: View, d: Data, m: Metadata, start: nat, received: bool)
    requires Live(cfg, t, v, start, received)
    requires m.startVersion <= m.endVersion < TWO_63 && d.size > 0
    requires !received ==> m.startVersion == start
    requires d.rows == Rows(cfg, t, m.startVersion, m.endVersion + 1)
    requires Extend(v.buffer.meta, m).Some?
    ensures Live(cfg, t, v.(buffer := Buffer(v.buffer.rows + d.rows, v.buffer.size + d.size, Extend(v.buffer.meta, m))), start, true)
  {
    if v.buffer.meta.Some? {
      RowsSplit(cfg, t, v.buffer.meta.value.startVersion, m.startVersion, m.endVersion + 1);
    }
  }

  lemma BatchLive(cfg: Config, t: Table, v: View, d: Data, m: Metadata, start: nat, received: bool)
    requires Live(cfg, t, v, start, received)
    requires m.startVersion <= m.endVersion < TWO_63 && d.size > 0
    requires !received ==> m.startVersion == start
    requires d.rows == Rows(cfg, t, m.startVersion, m.endVersion + 1)
    requires Absorb(v.buffer, d, m, cfg.maxSize).failure.None?
    ensures Live(cfg, t, AbsorbView(v, d, m, cfg.maxSize), start, true)
  {
    if v.buffer.size + d.size > cfg.maxSize {
      FlushLive(cfg, t, v, v.buffer.meta.value, start, received);
      var flushed := v.(buffer := EMPTY_BUFFER, objects := AddObject(v.objects, v.buffer.rows), queue := v.queue + [v.buffer.meta.value]);
      AppendLive(cfg, t, flushed, d, m, start, received);
    } else {
      AppendLive(cfg, t, v, d, m, start, received);
      assert v.queue + [] == v.queue;
    }
  }

  lemma TrackLive(cfg: Config, t: Table, v: View, start: nat, received: bool)
    requires Live(cfg, t, v, start, received) && v.queue != []
    requires v.last.Some? ==> v.last.value.endVersion + 1 == v.queue[0].startVersion
    ensures Live(cfg, t, v.(queue := v.queue[1..], last := Some(v.queue[0])), start, received)
  {
    assert RangeCovered(cfg, t, v.objects, v.queue[0]);
  }

  lemma SaveDurable(cfg: Config, t: Table, v: View, start: nat, received: bool)
    requires Live(cfg, t, v, start, received) && Durable(cfg, t, v) && v.last.Some?
    ensures Durable(cfg, t, v.(status := Some(SavedStatus(v.status, v.last.value.endVersion, v.last.value.endTimestamp))))
  {
  }

  // ---------------------------------------------------------------- the invariant of every state

  ghost predicate Invariant(cfg: Config, s: State) {
    && (forall t :: t in cfg.tables ==> Durable(cfg, t, ViewOf(s, t)))
    && (s.phase.Running? ==> forall t :: t in cfg.tables ==> Live(cfg, t, ViewOf(s, t), s.start, s.received))
  }

  lemma BatchKeepsTable(cfg: Config, s: State, e: Step, s': State, t: Table)
    requires e.Batch? && BatchStep(cfg, s, e, s') && t in cfg.tables
    requires Durable(cfg, t, ViewOf(s, t)) && Live(cfg, t, ViewOf(s, t), s.start, s.received)
    ensures Durable(cfg, t, ViewOf(s', t))
    ensures s'.phase.Running? ==> Live(cfg, t, ViewOf(s', t), s'.start, s'.received)
  {
    var v, data := ViewOf(s, t), DataFor(cfg, e.m, e.sizes);
    if e.outcome.Done? {
      BatchView(cfg, s, e, s', t);
      BatchLive(cfg, t, v, data[t], e.m, s.start, s.received);
    }
    var a := AbsorbAt(s.buffers, data, e.m, cfg.maxSize, t);
    MoreObjects(cfg, t, v, a.uploaded, s.start, s.received);
    assert ObjectsOf(s'.uploads, t) == if t in e.stored then AddObject(v.objects, a.uploaded) else v.objects;
  }

  lemma BatchKeeps(cfg: Config, s: State, e: Step, s': State)
    requires Invariant(cfg, s) && e.Batch? && BatchStep(cfg, s, e, s')
    ensures Invariant(cfg, s')
  {
    forall t | t in cfg.tables
      ensures Durable(cfg, t, ViewOf(s', t))
      ensures s'.phase.Running? ==> Live(cfg, t, ViewOf(s', t), s'.start, s'.received)
    {
      BatchKeepsTable(cfg, s, e, s', t);
    }
  }

  lemma DrainKeeps(cfg: Config, s: State, e: Step, s': State)
    requires Invariant(cfg, s) && e.Drain? && DrainStep(s, e, s')
    ensures Invariant(cfg, s')
  {
    forall t | t in cfg.tables
      ensures Durable(cfg, t, ViewOf(s', t))
      ensures s'.phase.Running? ==> Live(cfg, t, ViewOf(s', t), s'.start, s'.received)
    {
      var v := ViewOf(s, t);
      MoreObjects(cfg, t, v, v.buffer.rows, s.start, s.received);
      assert ObjectsOf(s'.uploads, t) == if t in e.stored && v.buffer.size > 0 then AddObject(v.objects, v.buffer.rows) else v.objects;
      assert Durable(cfg, t, ViewOf(s', t));
      if e.outcome.Done? {
        DrainedView(s, e, s', t);
        if v.buffer.size > 0 {
          FlushLive(cfg, t, v, DrainedMetadata(v.buffer, e.cleanup), s.start, s.received);
        }
      }
    }
  }

  lemma TrackKeeps(cfg: Config, s: State, e: Step, s': State)
    requires Invariant(cfg, s) && e.Track? && TrackStep(s, e, s')
    ensures Invariant(cfg, s')
  {
    forall t | t in cfg.tables
      ensures Durable(cfg, t, ViewOf(s', t))
      ensures s'.phase.Running? ==> Live(cfg, t, ViewOf(s', t), s'.start, s'.received)
    {
      var v := ViewOf(s, t);
      assert Durable(cfg, t, v) && Live(cfg, t, v, s.start, s.received);
      if e.outcome.Done? {
        TrackView(s, e, s', t);
        if ViewOf(s', t) != v {
          TrackLive(cfg, t, v, s.start, s.received);
        }
      }
    }
  }

  lemma SaveKeeps(cfg: Config, s: State, e: Step, s': State)
    requires Invariant(cfg, s) && e.Save? && SaveStep(s, e, s')
    ensures Invariant(cfg, s')
  {
    forall t | t in cfg.tables
      ensures Durable(cfg, t, ViewOf(s', t))
      ensures Live(cfg, t, ViewOf(s', t), s'.start, s'.received)
    {
      var v := ViewOf(s, t);
      assert Durable(cfg, t, v) && Live(cfg, t, v, s.start, s.received);
      if t == e.t {
        SaveDurable(cfg, t, v, s.start, s.received);
      }
    }
  }

  /** The exact condition of `StartSafeExactly`, on the rows of a stopped pipeline. */
  ghost predicate SafeToRestart(cfg: Config, s: State, unread: set<Table>) {
    SafeStart(cfg.job, Versions(s.status), cfg.tables, unread, cfg.initial)
  }

  /** Checkpoints hold versions. */
  lemma StatusInRange(cfg: Config, s: State)
    requires Invariant(cfg, s)
    ensures InRange(Versions(s.status), cfg.tables)
  {
    forall t | t in cfg.tables && t in s.status
      ensures 0 <= s.status[t].lastSuccessVersion < TWO_63
    {
      assert Durable(cfg, t, ViewOf(s, t));
    }
  }

  lemma RestartKeeps(cfg: Config, s: State, unread: set<Table>)
    requires Invariant(cfg, s) && SafeToRestart(cfg, s, unread)
    ensures Invariant(cfg, Restarted(cfg, s, unread))
  {
    var s', rows := Restarted(cfg, s, unread), Versions(s.status);
    StatusInRange(cfg, s);
    StartSafeExactly(cfg.job, rows, cfg.tables, unread, cfg.initial);
    forall t | t in cfg.tables
      ensures Durable(cfg, t, ViewOf(s', t))
      ensures Live(cfg, t, ViewOf(s', t), s'.start, false)
    {
      assert Durable(cfg, t, ViewOf(s, t));
      assert Resumes(rows, t, cfg.initial, s'.start);
    }
  }

  lemma NextKeeps(cfg: Config, s: State, e: Step, s': State)
    requires Invariant(cfg, s) && Next(cfg, s, e, s')
    requires e.Restart? ==> SafeToRestart(cfg, s, e.unread)
    ensures Invariant(cfg, s')
  {
    match e
    case Batch(_, _, _, _, _) => BatchKeeps(cfg, s, e, s');
    case Drain(_, _, _, _) => DrainKeeps(cfg, s, e, s');
    case Track(_) => TrackKeeps(cfg, s, e, s');
    case Save(_) => SaveKeeps(cfg, s, e, s');
    case Crash =>
      forall t | t in cfg.tables
        ensures ViewOf(s', t) == ViewOf(s, t)
      {
      }
    case Restart(unread) => RestartKeeps(cfg, s, unread);
  }

  // ---------------------------------------------------------------- the theorem

  /** Every restart of the run found its checkpoint rows in a safe condition. */
  ghost predicate RestartsSafely(cfg: Config, states: seq<State>, steps: seq<Step>)
    requires |states| == |steps| + 1
  {
    forall i :: 0 <= i < |steps| && steps[i].Restart? ==> SafeToRestart(cfg, states[i], steps[i].unread)
  }

  lemma {:induction false} InvariantHolds(cfg: Config, states: seq<State>, steps: seq<Step>, i: nat)
    requires IsRun(cfg, states, steps) && Initial(cfg, states[0]) && RestartsSafely(cfg, states, steps) && i < |states|
    ensures Invariant(cfg, states[i])
  {
    if i > 0 {
      InvariantHolds(cfg, states, steps, i - 1);
      StepAt(cfg, states, steps, i - 1);
      NextKeeps(cfg, states[i - 1], steps[i - 1], states[i]);
    }
  }

  /** Crash safety.  However batches, polls, saves, failures, crashes and restarts fall, whichever
      checkpoints a restart cannot read, and whatever versions the stream delivers after the first
      batch of a run, every row of every table from the initial version through that table's stored
      checkpoint is in the bucket.  This holds for default runs and for backfills. */
  lemma CrashSafe(cfg: Config, states: seq<State>, steps: seq<Step>, i: nat)
    requires IsRun(cfg, states, steps) && Initial(cfg, states[0]) && RestartsSafely(cfg, states, steps) && i < |states|
    ensures forall t, v: nat, r :: t in cfg.tables && t in states[i].status
                && cfg.initial <= v <= states[i].status[t].lastSuccessVersion && r in cfg.ledger(t, v)
              ==> exists o :: o in ObjectsOf(states[i].uploads, t) && r in o
  {
    InvariantHolds(cfg, states, steps, i);
    var s := states[i];
    forall t, v: nat, r | t in cfg.tables && t in s.status && cfg.initial <= v <= s.status[t].lastSuccessVersion && r in cfg.ledger(t, v)
      ensures exists o :: o in ObjectsOf(s.uploads, t) && r in o
    {
      assert Durable(cfg, t, ViewOf(s, t));
      assert Covered(cfg, ObjectsOf(s.uploads, t), t, v);
      CoveredHasRows(cfg, ObjectsOf(s.uploads, t), t, v, r);
    }
  }

  // ---------------------------------------------------------------- the starting version

  /** Where the starting version stands relative to the checkpoints, when the tables `unread` are
      never seen. */
  ghost predicate Started(cfg: Config, s: State, unread: set<Table>) {
    && cfg.initial <= s.start
    && (forall t :: t in cfg.tables && t in s.status ==> cfg.initial <= s.status[t].lastSuccessVersion)
    && (s.start == cfg.initial || BehindRows(cfg, s, unread))
    && (cfg.job.BackfillJob? && cfg.job.ending.Some? ==> s.start <= cfg.job.ending.value)
  }

  /** Some checkpoint is seen, and the run started no later than a run from any that is. */
  ghost predicate BehindRows(cfg: Config, s: State, unread: set<Table>) {
    && (exists t :: t in cfg.tables && t !in unread && t in s.status)
    && forall t :: t in cfg.tables && t !in unread && t in s.status ==>
         s.start <= s.status[t].lastSuccessVersion + if cfg.job.DefaultJob? then 0 else 1
  }

  /** The ending version of a backfill does not lie before its initial version. */
  ghost predicate ProperJob(cfg: Config) {
    cfg.job.BackfillJob? && cfg.job.ending.Some? ==> cfg.initial <= cfg.job.ending.value
  }

  lemma RestartAdvances(cfg: Config, s: State, unread: set<Table>)
    requires Started(cfg, s, unread) && ProperJob(cfg) && InRange(Versions(s.status), cfg.tables)
    ensures Started(cfg, Restarted(cfg, s, unread), unread) && s.start <= Restarted(cfg, s, unread).start
  {
    var rows := Versions(s.status);
    LeastReadable(rows, cfg.tables, unread);
    assert forall t :: t in cfg.tables && t !in unread && t in s.status <==> Readable(rows, cfg.tables, unread, t);
  }

  lemma RowsStay(cfg: Config, s: State, e: Step, s': State)
    requires Next(cfg, s, e, s') && !e.Restart? && !e.Save?
    ensures s'.start == s.start && s'.status == s.status
  {
  }

  lemma SaveAdvances(cfg: Config, s: State, e: Step, s': State, unread: set<Table>)
    requires Started(cfg, s, unread) && e.Save? && SaveStep(s, e, s')
    requires e.t in cfg.tables ==> s.start <= s.last[e.t].endVersion < TWO_63
    ensures Started(cfg, s', unread) && s'.start == s.start
  {
  }

  lemma StepAdvances(cfg: Config, s: State, e: Step, s': State, unread: set<Table>)
    requires Started(cfg, s, unread) && ProperJob(cfg) && Invariant(cfg, s) && Next(cfg, s, e, s')
    requires e.Restart? ==> e.unread == unread
    ensures Started(cfg, s', unread) && s.start <= s'.start
  {
    if e.Restart? {
      StatusInRange(cfg, s);
      RestartAdvances(cfg, s, unread);
    } else if e.Save? {
      if e.t in cfg.tables {
        assert Live(cfg, e.t, ViewOf(s, e.t), s.start, s.received);
      }
      SaveAdvances(cfg, s, e, s', unread);
    } else {
      RowsStay(cfg, s, e, s');
    }
  }

  lemma {:induction false} StartedHolds(cfg: Config, states: seq<State>, steps: seq<Step>, unread: set<Table>, i: nat)
    requires IsRun(cfg, states, steps) && Initial(cfg, states[0]) && RestartsSafely(cfg, states, steps) && ProperJob(cfg) && i < |states|
    requires forall j :: 0 <= j < i && steps[j].Restart? ==> steps[j].unread == unread
    ensures Started(cfg, states[i], unread)
  {
    if i > 0 {
      StartedHolds(cfg, states, steps, unread, i - 1);
      InvariantHolds(cfg, states, steps, i - 1);
      StepAt(cfg, states, steps, i - 1);
      StepAdvances(cfg, states[i - 1], steps[i - 1], states[i], unread);
    }
  }

  /** When every restart sees the same tables, whichever those are, the version a run starts from
      never moves back. */
  lemma StartNeverMovesBack(cfg: Config, states: seq<State>, steps: seq<Step>, unread: set<Table>, i: nat)
    requires IsRun(cfg, states, steps) && Initial(cfg, states[0]) && RestartsSafely(cfg, states, steps) && ProperJob(cfg) && i < |steps|
    requires forall j :: 0 <= j <= i && steps[j].Restart? ==> steps[j].unread == unread
    ensures states[i].start <= states[i + 1].start
  {
    StartedHolds(cfg, states, steps, unread, i);
    InvariantHolds(cfg, states, steps, i);
    StepAt(cfg, states, steps, i);
    StepAdvances(cfg, states[i], steps[i], states[i + 1], unread);
  }
}

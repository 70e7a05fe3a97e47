/** The stages wired together as one process: what each call of a stage does to the whole process
    is a step of the state machine of `Pipeline`. */
module PipelineProcess {
  import opened Prelude
  import opened ParquetBuffers
  import opened ProcessorStatus
  import opened RestartPoints
  import opened VersionTracker
  import opened Pipeline
  import opened CrashSafety
  import opened VersionBounds

  // ---------------------------------------------------------------- names read and names saved

  /** The names whose checkpoints are read. */
  function TableNames(processor: string, tables: seq<Table>): (r: seq<string>) {
    if tables == [] then []
    else TableNames(processor, tables[..|tables| - 1]) + [FormatTableName(processor, tables[|tables| - 1])]
  }

  lemma {:induction false} NamesOf(processor: string, tables: seq<Table>)
    ensures forall t :: t in tables ==> FormatTableName(processor, t) in TableNames(processor, tables)
    ensures forall n :: n in TableNames(processor, tables) ==> exists t :: t in tables && n == FormatTableName(processor, t)
  {
    if tables != [] {
      var k := |tables| - 1;
      NamesOf(processor, tables[..k]);
      assert tables == tables[..k] + [tables[k]];
    }
  }

  /** The tables whose checkpoints a start does not see. */
  ghost function Unread(processor: string, tables: seq<Table>, listed: seq<Table>, unreadable: set<string>): (r: set<Table>) {
    set t | t in tables && (t !in listed || FormatTableName(processor, t) in unreadable)
  }

  ghost predicate SameRows(byTable: map<Table, int>, stored: map<string, int>, processor: string, listed: seq<Table>) {
    forall t :: t in listed ==> Get(byTable, t) == Get(stored, FormatTableName(processor, t))
  }

  lemma TablesAtMost(byTable: map<Table, int>, stored: map<string, int>, processor: string, tables: seq<Table>, listed: seq<Table>, unreadable: set<string>)
    requires SameRows(byTable, stored, processor, listed) && forall t :: t in listed ==> t in tables
    ensures AtMost(MinVersion(byTable, tables, Unread(processor, tables, listed, unreadable)),
                   MinVersion(stored, TableNames(processor, listed), unreadable))
  {
    var unread := Unread(processor, tables, listed, unreadable);
    var least := MinVersion(stored, TableNames(processor, listed), unreadable);
    MinVersionIsLeast(byTable, tables, unread);
    MinVersionIsLeast(stored, TableNames(processor, listed), unreadable);
    if least.Some? {
      var n :| n in TableNames(processor, listed) && n in stored && n !in unreadable && AsU64(stored[n]) == least.value;
      NamesOf(processor, listed);
      var t :| t in listed && n == FormatTableName(processor, t);
      assert Get(byTable, t) == Get(stored, n);
      assert t in tables && t in byTable && t !in unread;
    }
  }

  lemma TablesAtLeast(byTable: map<Table, int>, stored: map<string, int>, processor: string, tables: seq<Table>, listed: seq<Table>, unreadable: set<string>)
    requires SameRows(byTable, stored, processor, listed)
    ensures AtMost(MinVersion(stored, TableNames(processor, listed), unreadable),
                   MinVersion(byTable, tables, Unread(processor, tables, listed, unreadable)))
  {
    var unread := Unread(processor, tables, listed, unreadable);
    var least := MinVersion(byTable, tables, unread);
    MinVersionIsLeast(byTable, tables, unread);
    MinVersionIsLeast(stored, TableNames(processor, listed), unreadable);
    if least.Some? {
      var t :| t in tables && t in byTable && t !in unread && AsU64(byTable[t]) == least.value;
      NamesOf(processor, listed);
      assert t in listed && Get(byTable, t) == Get(stored, FormatTableName(processor, t));
      assert FormatTableName(processor, t) in TableNames(processor, listed);
    }
  }

  /** The least checkpoint over the names is the least over the tables that are seen. */
  lemma SameMinimum(byTable: map<Table, int>, stored: map<string, int>, processor: string, tables: seq<Table>, listed: seq<Table>, unreadable: set<string>)
    requires SameRows(byTable, stored, processor, listed) && forall t :: t in listed ==> t in tables
    ensures MinVersion(byTable, tables, Unread(processor, tables, listed, unreadable)) ==
            MinVersion(stored, TableNames(processor, listed), unreadable)
  {
    TablesAtMost(byTable, stored, processor, tables, listed, unreadable);
    TablesAtLeast(byTable, stored, processor, tables, listed, unreadable);
  }

  // ---------------------------------------------------------------- stored rows, seen by table

  ghost predicate Shows<V>(byTable: map<Table, StatusRow>, stored: map<string, V>, key: Table -> string, view: V -> StatusRow) {
    forall t :: Get(byTable, t) == Seen(Get(stored, key(t)), view)
  }

  ghost function Seen<V>(row: Option<V>, view: V -> StatusRow): (r: Option<StatusRow>) {
    if row.Some? then Some(view(row.value)) else None
  }

  function AsIs(): (view: StatusRow -> StatusRow) {
    (r: StatusRow) => r
  }

  function Progress(): (view: BackfillRow -> StatusRow) {
    (r: BackfillRow) => StatusRow(r.lastSuccessVersion, r.lastTimestamp)
  }

  function JobOf(mode: Mode): (job: Job) {
    if mode.Backfill? then BackfillJob(mode.ending) else DefaultJob
  }

  /** The modes that checkpoint: default mode, and a backfill that does not overwrite. */
  ghost predicate Checkpoints(mode: Mode) {
    mode.Default? || (mode.Backfill? && !mode.overwrite && (mode.ending.Some? ==> mode.ending.value < TWO_63))
  }

  /** The rows of a backfill say `Complete` exactly when they have reached its ending version. */
  ghost predicate Reached(backfill: map<string, BackfillRow>, key: Table -> string, ending: Option<nat>) {
    forall t :: key(t) in backfill ==>
      (backfill[key(t)].status == Complete <==> ending.Some? && backfill[key(t)].lastSuccessVersion >= ending.value)
  }

  /** The two status tables hold the checkpoints of the machine. */
  ghost predicate Stores(byTable: map<Table, StatusRow>, status: map<string, StatusRow>, backfill: map<string, BackfillRow>, processor: string, mode: Mode) {
    match mode
    case Default(_) => Shows(byTable, status, StatusKey(processor), AsIs())
    case Backfill(id, _, ending, _) =>
      Shows(byTable, backfill, BackfillKey(processor, id), Progress()) && Reached(backfill, BackfillKey(processor, id), ending)
    case Testing(_, _) => true
  }

  lemma DefaultRows(byTable: map<Table, StatusRow>, status: map<string, StatusRow>, processor: string, listed: seq<Table>)
    requires Shows(byTable, status, StatusKey(processor), AsIs())
    ensures SameRows(Versions(byTable), Versions(status), processor, listed)
  {
    forall t | t in listed
      ensures Get(Versions(byTable), t) == Get(Versions(status), FormatTableName(processor, t))
    {
      assert Get(byTable, t) == Seen(Get(status, StatusKey(processor)(t)), AsIs());
    }
  }

  lemma BackfillRows(byTable: map<Table, StatusRow>, backfill: map<string, BackfillRow>, processor: string, id: string, listed: seq<Table>)
    requires Shows(byTable, backfill, BackfillKey(processor, id), Progress())
    ensures SameRows(Versions(byTable), JobRows(backfill, id, TableNames(processor, listed)), processor, listed)
  {
    NamesOf(processor, listed);
    forall t | t in listed
      ensures Get(Versions(byTable), t) == Get(JobRows(backfill, id, TableNames(processor, listed)), FormatTableName(processor, t))
    {
      assert Get(byTable, t) == Seen(Get(backfill, BackfillKey(processor, id)(t)), Progress());
    }
  }

  lemma BackfillRange(byTable: map<Table, int>, stored: map<string, int>, processor: string, tables: seq<Table>, listed: seq<Table>)
    requires SameRows(byTable, stored, processor, listed) && InRange(byTable, tables) && forall t :: t in listed ==> t in tables
    ensures InRange(stored, TableNames(processor, listed))
  {
    NamesOf(processor, listed);
    forall n | n in TableNames(processor, listed) && n in stored
      ensures 0 <= stored[n] < TWO_63
    {
      var t :| t in listed && n == FormatTableName(processor, t);
      assert Get(byTable, t) == Get(stored, n);
      assert byTable[t] == stored[n];
    }
  }

  lemma NamesReached(backfill: map<string, BackfillRow>, processor: string, id: string, listed: seq<Table>, ending: Option<nat>)
    requires Reached(backfill, BackfillKey(processor, id), ending)
    ensures CompleteMeansReached(backfill, id, TableNames(processor, listed), ending)
  {
    NamesOf(processor, listed);
    forall n | n in TableNames(processor, listed) && Alias(n, id) in backfill
      ensures RowComplete(backfill, id, n) <==> ending.Some? && backfill[Alias(n, id)].lastSuccessVersion >= ending.value
    {
      var t :| t in listed && n == FormatTableName(processor, t);
      assert BackfillKey(processor, id)(t) == Alias(n, id);
    }
  }

  lemma DefaultFrom(byTable: map<Table, StatusRow>, status: map<string, StatusRow>, processor: string, mode: Mode,
                    tables: seq<Table>, listed: seq<Table>, unreadable: set<string>)
    requires mode.Default? && Shows(byTable, status, StatusKey(processor), AsIs()) && forall t :: t in listed ==> t in tables
    ensures DefaultStart(Versions(status), TableNames(processor, listed), unreadable, mode.initial) ==
            DefaultStart(Versions(byTable), tables, Unread(processor, tables, listed, unreadable), mode.initial)
  {
    DefaultRows(byTable, status, processor, listed);
    SameMinimum(Versions(byTable), Versions(status), processor, tables, listed, unreadable);
  }

  lemma BackfillFrom(byTable: map<Table, StatusRow>, status: map<string, StatusRow>, backfill: map<string, BackfillRow>,
                     processor: string, mode: Mode, tables: seq<Table>, listed: seq<Table>, unreadable: set<string>)
    requires mode.Backfill? && !mode.overwrite && Shows(byTable, backfill, BackfillKey(processor, mode.id), Progress())
    requires Reached(backfill, BackfillKey(processor, mode.id), mode.ending)
    requires InRange(Versions(byTable), tables) && forall t :: t in listed ==> t in tables
    ensures StartVersion(status, backfill, mode, TableNames(processor, listed), unreadable) ==
            Some(StartPoint(BackfillJob(mode.ending), Versions(byTable), tables, Unread(processor, tables, listed, unreadable), mode.initial))
  {
    BackfillMinimum(byTable, backfill, processor, mode.id, tables, listed, unreadable);
    NamesReached(backfill, processor, mode.id, listed, mode.ending);
    SamePoint(status, backfill, mode, TableNames(processor, listed), unreadable, Versions(byTable), tables, Unread(processor, tables, listed, unreadable));
  }

  lemma SamePoint(status: map<string, StatusRow>, backfill: map<string, BackfillRow>, mode: Mode, names: seq<string>, unreadable: set<string>,
                  rows: map<Table, int>, tables: seq<Table>, unread: set<Table>)
    requires mode.Backfill? && !mode.overwrite && CompleteMeansReached(backfill, mode.id, names, mode.ending)
    requires InRange(JobRows(backfill, mode.id, names), names)
    requires MinVersion(rows, tables, unread) == MinVersion(JobRows(backfill, mode.id, names), names, unreadable)
    ensures StartVersion(status, backfill, mode, names, unreadable) ==
            Some(StartPoint(BackfillJob(mode.ending), rows, tables, unread, mode.initial))
  {
    BackfillStartsAtPoint(status, backfill, mode, names, unreadable);
  }

  lemma BackfillMinimum(byTable: map<Table, StatusRow>, backfill: map<string, BackfillRow>, processor: string, id: string,
                        tables: seq<Table>, listed: seq<Table>, unreadable: set<string>)
    requires Shows(byTable, backfill, BackfillKey(processor, id), Progress())
    requires InRange(Versions(byTable), tables) && forall t :: t in listed ==> t in tables
    ensures InRange(JobRows(backfill, id, TableNames(processor, listed)), TableNames(processor, listed))
    ensures MinVersion(Versions(byTable), tables, Unread(processor, tables, listed, unreadable)) ==
            MinVersion(JobRows(backfill, id, TableNames(processor, listed)), TableNames(processor, listed), unreadable)
  {
    var rows, stored := Versions(byTable), JobRows(backfill, id, TableNames(processor, listed));
    BackfillRows(byTable, backfill, processor, id, listed);
    SameMinimum(rows, stored, processor, tables, listed, unreadable);
    BackfillRange(rows, stored, processor, tables, listed);
  }

  /** The version computed from the stored names is where the machine restarts. */
  lemma RestartFrom(cfg: Config, s: State, status: map<string, StatusRow>, backfill: map<string, BackfillRow>,
                    processor: string, mode: Mode, listed: seq<Table>, unreadable: set<string>)
    requires Checkpoints(mode) && Stores(s.status, status, backfill, processor, mode)
    requires cfg.job == JobOf(mode) && cfg.initial == mode.initial && forall t :: t in listed ==> t in cfg.tables
    requires mode.Backfill? ==> InRange(Versions(s.status), cfg.tables)
    ensures StartVersion(status, backfill, mode, TableNames(processor, listed), unreadable) ==
            Some(Restarted(cfg, s, Unread(processor, cfg.tables, listed, unreadable)).start)
  {
    if mode.Default? {
      DefaultFrom(s.status, status, processor, mode, cfg.tables, listed, unreadable);
    } else {
      BackfillFrom(s.status, status, backfill, processor, mode, cfg.tables, listed, unreadable);
    }
  }

  // ---------------------------------------------------------------- saves

  /** The state with the tables `saved` checkpointed one after the other. */
  ghost predicate Checkpointed(s: State, saved: set<Table>, s': State) {
    && s' == s.(status := s'.status)
    && forall t :: Get(s'.status, t) ==
         if t in saved && t in s.last then Some(SavedStatus(Get(s.status, t), s.last[t].endVersion, s.last[t].endTimestamp))
         else Get(s.status, t)
  }

  /** Saving several tables is a run of single saves, in whatever order they are stored. */
  lemma {:induction false} SavesAreRun(cfg: Config, s: State, saved: set<Table>) returns (states: seq<State>, steps: seq<Step>)
    requires s.phase.Running? && saved <= s.last.Keys
    ensures IsRun(cfg, states, steps) && states[0] == s && Checkpointed(s, saved, states[|steps|])
    ensures forall e :: e in steps ==> e.Save?
    decreases saved
  {
    if saved == {} {
      states, steps := [s], [];
    } else {
      var t :| t in saved;
      states, steps := SavesAreRun(cfg, s, saved - {t});
      var mid := states[|steps|];
      var next := mid.(status := mid.status[t := SavedStatus(Get(mid.status, t), s.last[t].endVersion, s.last[t].endTimestamp)]);
      OneMoreStep(cfg, states, steps, Step.Save(t), next);
      states, steps := states + [next], steps + [Step.Save(t)];
    }
  }

  /** An upsert, seen as a row of the machine, is the machine's upsert. */
  ghost predicate Agrees<V(!new)>(row: (Option<V>, Metadata) -> V, view: V -> StatusRow) {
    forall o, m :: view(row(o, m)) == SavedStatus(Seen(o, view), m.endVersion, m.endTimestamp)
  }

  lemma UpsertsAgree(mode: Mode)
    ensures Agrees(StatusUpsert(), AsIs())
    ensures mode.Backfill? && !mode.overwrite ==> Agrees(BackfillUpsert(mode), Progress())
  {
  }

  lemma SavedShows<V(!new)>(s: State, s': State, was: map<string, V>, now: map<string, V>, key: Table -> string,
                      row: (Option<V>, Metadata) -> V, view: V -> StatusRow, saved: set<Table>)
    requires Shows(s.status, was, key, view) && RowsSaved(was, now, s.last, key, row, saved) && saved <= s.last.Keys
    requires Injective(key) && Agrees(row, view) && Checkpointed(s, saved, s')
    ensures Shows(s'.status, now, key, view)
  {
    forall t
      ensures Get(s'.status, t) == Seen(Get(now, key(t)), view)
    {
      assert Get(s.status, t) == Seen(Get(was, key(t)), view);
      if t in saved {
        assert Get(now, key(t)) == Some(row(Get(was, key(t)), s.last[t]));
      }
    }
  }

  lemma SavedReached(was: map<string, BackfillRow>, now: map<string, BackfillRow>, last: map<Table, Metadata>, key: Table -> string, mode: Mode, saved: set<Table>)
    requires mode.Backfill? && Checkpoints(mode) && Injective(key) && Reached(was, key, mode.ending)
    requires RowsSaved(was, now, last, key, BackfillUpsert(mode), saved)
    ensures Reached(now, key, mode.ending)
  {
    forall t | key(t) in now
      ensures now[key(t)].status == Complete <==> mode.ending.Some? && now[key(t)].lastSuccessVersion >= mode.ending.value
    {
      assert Get(now, key(t)) == Some(now[key(t)]);
      if t in saved && t in last {
        assert Get(now, key(t)) == Some(BackfillUpsert(mode)(Get(was, key(t)), last[t]));
      } else {
        assert Get(now, key(t)) == Get(was, key(t));
      }
    }
  }

  lemma SavedStores(s: State, s': State, status: map<string, StatusRow>, backfill: map<string, BackfillRow>,
                    status': map<string, StatusRow>, backfill': map<string, BackfillRow>, processor: string, mode: Mode, saved: set<Table>)
    requires Checkpoints(mode) && Stores(s.status, status, backfill, processor, mode) && saved <= s.last.Keys
    requires StoreSaved(status, backfill, status', backfill', s.last, processor, mode, saved) && Checkpointed(s, saved, s')
    ensures Stores(s'.status, status', backfill', processor, mode)
  {
    UpsertsAgree(mode);
    if mode.Default? {
      KeysAreInjective(processor, "");
      SavedShows(s, s', status, status', StatusKey(processor), StatusUpsert(), AsIs(), saved);
    } else {
      KeysAreInjective(processor, mode.id);
      SavedShows(s, s', backfill, backfill', BackfillKey(processor, mode.id), BackfillUpsert(mode), Progress(), saved);
      SavedReached(backfill, backfill', s.last, BackfillKey(processor, mode.id), mode, saved);
    }
  }

  /** Every tracked table has a checkpoint at or past its last good range. */
  ghost predicate AllSaved(s: State, s': State) {
    forall t :: t in s.last ==> t in s'.status && s'.status[t].lastSuccessVersion >= AsI64(s.last[t].endVersion)
  }

  lemma CheckpointedAll(s: State, saved: set<Table>, s': State)
    requires Checkpointed(s, saved, s') && saved == s.last.Keys
    ensures AllSaved(s, s')
  {
    forall t | t in s.last
      ensures Get(s'.status, t) == Some(SavedStatus(Get(s.status, t), s.last[t].endVersion, s.last[t].endTimestamp))
    {
    }
  }

  /** A call that saves the tables `saved`, as a run; the process stops when the call fails. */
  lemma SaveRun(cfg: Config, s: State, status: map<string, StatusRow>, backfill: map<string, BackfillRow>,
                status': map<string, StatusRow>, backfill': map<string, BackfillRow>, processor: string, mode: Mode, saved: set<Table>, ok: bool)
    returns (states: seq<State>, steps: seq<Step>)
    requires s.phase.Running? && saved <= s.last.Keys && (ok ==> saved == s.last.Keys) && Checkpoints(mode)
    requires Stores(s.status, status, backfill, processor, mode)
    requires StoreSaved(status, backfill, status', backfill', s.last, processor, mode, saved)
    ensures IsRun(cfg, states, steps) && states[0] == s
    ensures var s' := states[|steps|];
            && s' == s.(status := s'.status, phase := s'.phase)
            && s'.phase == (if ok then Running else Stopped(None))
            && Stores(s'.status, status', backfill', processor, mode)
            && (ok ==> AllSaved(s, s'))
  {
    states, steps := SavesAreRun(cfg, s, saved);
    var s' := states[|steps|];
    SavedStores(s, s', status, backfill, status', backfill', processor, mode, saved);
    if ok {
      CheckpointedAll(s, saved, s');
    } else {
      OneMoreStep(cfg, states, steps, Crash, s'.(phase := Stopped(None)));
      states, steps := states + [s'.(phase := Stopped(None))], steps + [Crash];
    }
  }

  // ---------------------------------------------------------------- the process

  /** A run of the machine from its initial state to the state `s`. */
  ghost predicate History(cfg: Config, states: seq<State>, steps: seq<Step>, s: State) {
    IsRun(cfg, states, steps) && Initial(cfg, states[0]) && states[|steps|] == s
  }

  class Process {
    ghost const cfg: Config
    const processor: string
    const listed: seq<Table>
    const names: seq<string>
    const mode: Mode
    const store: StatusStore
    var buffer: ParquetBufferStep
    var tracker: ParquetVersionTrackerStep
    var channel: seq<map<Table, Metadata>>
    /** The state of the machine that this process is in. */
    ghost var model: State
    /** How it got there: the states since it was first started and the steps between them. */
    ghost var states: seq<State>
    ghost var steps: seq<Step>

    /** The stages and the stored rows are those of the machine's state. */
    ghost predicate Wired()
      reads this, store, buffer, tracker
    {
      && Checkpoints(mode) && cfg.job == JobOf(mode) && cfg.initial == mode.initial
      && names == TableNames(processor, listed) && (forall t :: t in listed ==> t in cfg.tables)
      && buffer.maxSize == cfg.maxSize && tracker.store == store && tracker.processor == processor && tracker.mode == mode
      && Stores(model.status, store.status, store.backfill, processor, mode)
      && model.uploads == buffer.uploads
      && (model.phase.Running? ==> model.buffers == buffer.buffers && model.channel == channel && model.last == tracker.last)
    }

    ghost predicate Valid()
      reads this, store, buffer, tracker
    {
      Wired() && History(cfg, states, steps, model)
    }

    /** `listed` are the tables whose checkpoints are read at a start; all of `tables` are saved. */
    constructor (tables: seq<Table>, listed: seq<Table>, maxSize: nat, mode: Mode, processor: string, ghost ledger: (Table, nat) -> seq<Row>)
      requires Checkpoints(mode) && forall t :: t in listed ==> t in tables
      ensures Valid() && cfg == Config(tables, maxSize, JobOf(mode), mode.initial, ledger)
      ensures this.mode == mode && this.processor == processor && this.listed == listed
      ensures Initial(cfg, model)
    {
      this.cfg := Config(tables, maxSize, JobOf(mode), mode.initial, ledger);
      this.processor, this.mode, this.listed, names := processor, mode, listed, TableNames(processor, listed);
      var db := new StatusStore();
      store, channel := db, [];
      buffer := new ParquetBufferStep(maxSize);
      tracker := new ParquetVersionTrackerStep(db, processor, mode);
      model := State(Stopped(None), mode.initial, false, map[], [], map[], map[], map[]);
      states, steps := [State(Stopped(None), mode.initial, false, map[], [], map[], map[], map[])], [];
    }

    method ReadStart(unreadable: set<string>) returns (from: nat)
      requires Wired() && model.phase.Stopped?
      requires InRange(Versions(model.status), cfg.tables)
      modifies store`backfill
      ensures store.backfill == old(store.backfill)
      ensures from == Restarted(cfg, model, Unread(processor, cfg.tables, listed, unreadable)).start
    {
      RestartFrom(cfg, model, store.status, store.backfill, processor, mode, listed, unreadable);
      var r := store.GetParquetStartingVersion(mode, names, unreadable);
      from := r.value;
    }

    /** Only the bucket outlives the stages. */
    method NewStages()
      modifies this`buffer, this`tracker, this`channel
      ensures buffer.maxSize == old(buffer.maxSize) && buffer.uploads == old(buffer.uploads) && buffer.buffers == map[]
      ensures tracker.store == store && tracker.processor == processor && tracker.mode == mode && tracker.last == map[]
      ensures channel == []
    {
      var bucket := buffer.uploads;
      buffer := new ParquetBufferStep(buffer.maxSize);
      buffer.uploads := bucket;
      tracker := new ParquetVersionTrackerStep(store, processor, mode);
      channel := [];
    }

    /** A new run: fresh stages, and the version to ask the stream for.  Reading the names
        `unreadable` fails. */
    method Start(unreadable: set<string>) returns (from: nat)
      requires Valid() && model.phase.Stopped?
      modifies this, store`backfill
      ensures Valid()
      ensures Next(cfg, old(model), Restart(Unread(processor, cfg.tables, listed, unreadable)), model) && from == model.start
      ensures steps == old(steps) + [Restart(Unread(processor, cfg.tables, listed, unreadable))] && states == old(states) + [model]
    {
      ghost var restart := Step.Restart(Unread(processor, cfg.tables, listed, unreadable));
      CheckpointsInRange(cfg, states, steps, |steps|);
      from := ReadStart(unreadable);
      NewStages();
      model := Restarted(cfg, model, restart.unread);
      OneMoreStep(cfg, states, steps, restart, model);
      states, steps := states + [model], steps + [restart];
    }

    /** A batch of the stream reaches the buffer stage. */
    method OnBatch(data: map<Table, Data>, m: Metadata, ghost sizes: map<Table, nat>) returns (r: Outcome, ghost e: Step)
      requires Valid() && model.phase.Running?
      requires m.startVersion <= m.endVersion < TWO_63 && (!model.received ==> m.startVersion == model.start)
      requires (forall t :: t in cfg.tables <==> t in sizes) && (forall t :: t in sizes ==> sizes[t] > 0)
      requires data == DataFor(cfg, m, sizes)
      modifies this, buffer
      ensures Valid()
      ensures e.Batch? && e.m == m && e.outcome == r && Next(cfg, old(model), e, model)
      ensures steps == old(steps) + [e] && states == old(states) + [model]
    {
      r, e := TakeBatch(data, m, sizes);
      OneMoreStep(cfg, states, steps, e, model);
      states, steps := states + [model], steps + [e];
    }

    method TakeBatch(data: map<Table, Data>, m: Metadata, ghost sizes: map<Table, nat>) returns (r: Outcome, ghost e: Step)
      requires Wired() && model.phase.Running?
      requires m.startVersion <= m.endVersion < TWO_63 && (!model.received ==> m.startVersion == model.start)
      requires (forall t :: t in cfg.tables <==> t in sizes) && (forall t :: t in sizes ==> sizes[t] > 0)
      requires data == DataFor(cfg, m, sizes)
      modifies this`channel, this`model, buffer
      ensures Wired()
      ensures e.Batch? && e.m == m && e.outcome == r && Next(cfg, old(model), e, model)
    {
      var flushed;
      ghost var stored;
      r, flushed, stored := buffer.Process(data, m);
      e := Step.Batch(m, sizes, r, flushed, stored);
      if r.Done? {
        channel := Send(channel, flushed);
        model := model.(buffers := buffer.buffers, uploads := buffer.uploads, channel := channel, received := true);
      } else {
        model := model.(uploads := buffer.uploads, phase := Stopped(Some(r.failure)));
      }
    }

    /** The buffer stage is polled, or cleans up at the end of the stream. */
    method OnDrain(cleanup: bool) returns (r: Outcome, ghost e: Step)
      requires Valid() && model.phase.Running?
      modifies this, buffer
      ensures Valid()
      ensures e.Drain? && e.cleanup == cleanup && e.outcome == r && Next(cfg, old(model), e, model)
      ensures steps == old(steps) + [e] && states == old(states) + [model]
    {
      r, e := DrainBuffers(cleanup);
      OneMoreStep(cfg, states, steps, e, model);
      states, steps := states + [model], steps + [e];
    }

    method DrainBuffers(cleanup: bool) returns (r: Outcome, ghost e: Step)
      requires Wired() && model.phase.Running?
      modifies this`channel, this`model, buffer
      ensures Wired()
      ensures e.Drain? && e.cleanup == cleanup && e.outcome == r && Next(cfg, old(model), e, model)
    {
      var flushed;
      ghost var stored;
      r, flushed, stored := buffer.Drain(cleanup);
      e := Step.Drain(cleanup, r, flushed, stored);
      if r.Done? {
        channel := Send(channel, flushed);
        model := model.(buffers := buffer.buffers, uploads := buffer.uploads, channel := channel);
      } else {
        model := model.(uploads := buffer.uploads, phase := Stopped(Some(r.failure)));
      }
    }

    /** The tracker takes the next map of ranges from the channel. */
    method OnTrack() returns (r: Outcome)
      requires Valid() && model.phase.Running? && channel != []
      modifies this, tracker
      ensures Valid()
      ensures Next(cfg, old(model), Track(r), model)
      ensures steps == old(steps) + [Track(r)] && states == old(states) + [model]
    {
      r := TakeRanges();
      OneMoreStep(cfg, states, steps, Track(r), model);
      states, steps := states + [model], steps + [Track(r)];
    }

    method TakeRanges() returns (r: Outcome)
      requires Wired() && model.phase.Running? && channel != []
      modifies this`channel, this`model, tracker
      ensures Wired()
      ensures Next(cfg, old(model), Track(r), model)
    {
      r := tracker.Process(channel[0]);
      if r.Done? {
        channel := channel[1..];
        model := model.(last := tracker.last, channel := channel);
      } else {
        model := model.(phase := Stopped(Some(Gap)));
      }
    }

    /** The tracker is polled, or cleans up: a run of saves, cut short when the database fails. */
    method OnSave() returns (ok: bool, ghost more: seq<State>, ghost saves: seq<Step>)
      requires Valid() && model.phase.Running?
      modifies this, store
      ensures Valid()
      ensures IsRun(cfg, more, saves) && more[0] == old(model) && more[|saves|] == model
      ensures model.phase == (if ok then Running else Stopped(None))
      ensures ok ==> AllSaved(old(model), model)
      ensures steps == old(steps) + saves && states == old(states) + more[1..]
    {
      ok, more, saves := SaveAll();
      RunsJoin(cfg, states, steps, more, saves);
      states, steps := states + more[1..], steps + saves;
    }

    method SaveAll() returns (ok: bool, ghost more: seq<State>, ghost saves: seq<Step>)
      requires Wired() && model.phase.Running?
      modifies this`model, store
      ensures Wired()
      ensures IsRun(cfg, more, saves) && more[0] == old(model) && more[|saves|] == model
      ensures model.phase == (if ok then Running else Stopped(None))
      ensures ok ==> AllSaved(old(model), model)
    {
      ghost var saved;
      ok, saved := tracker.SaveProcessorStatus();
      more, saves := SaveRun(cfg, model, old(store.status), old(store.backfill), store.status, store.backfill, processor, mode, saved, ok);
      model := more[|saves|];
    }

    /** The process stops at any point; only the bucket and the stored rows survive. */
    ghost method Stop()
      requires Valid() && model.phase.Running?
      modifies this
      ensures Valid() && model == old(model).(phase := Stopped(None))
      ensures steps == old(steps) + [Crash] && states == old(states) + [model]
    {
      model := model.(phase := Stopped(None));
      OneMoreStep(cfg, states, steps, Crash, model);
      states, steps := states + [model], steps + [Crash];
    }

    /** The version of a table's stored checkpoint. */
    ghost function Checkpoint(t: Table): (r: Option<int>)
      reads this, store
    {
      match mode
      case Default(_) =>
        var name := StatusKey(processor)(t);
        if name in store.status then Some(store.status[name].lastSuccessVersion) else None
      case Backfill(id, _, _, _) =>
        var name := BackfillKey(processor, id)(t);
        if name in store.backfill then Some(store.backfill[name].lastSuccessVersion) else None
      case Testing(_, _) => None
    }

    lemma CheckpointIsStatus(t: Table)
      requires Wired()
      ensures Checkpoint(t) == if t in model.status then Some(model.status[t].lastSuccessVersion) else None
    {
      if mode.Default? {
        assert Get(model.status, t) == Seen(Get(store.status, StatusKey(processor)(t)), AsIs());
      } else {
        assert Get(model.status, t) == Seen(Get(store.backfill, BackfillKey(processor, mode.id)(t)), Progress());
      }
    }

    /** After any sequence of calls whose restarts were safe, every row of every table from the initial
        version through the checkpoint in the database is in the bucket. */
    lemma StoredRowsAreUploaded(t: Table, v: nat, r: Row)
      requires Valid() && RestartsSafely(cfg, states, steps) && t in cfg.tables
      requires Checkpoint(t).Some? && cfg.initial <= v <= Checkpoint(t).value && r in cfg.ledger(t, v)
      ensures exists o :: o in ObjectsOf(buffer.uploads, t) && r in o
    {
      CheckpointIsStatus(t);
      CrashSafe(cfg, states, steps, |steps|);
    }
  }
}

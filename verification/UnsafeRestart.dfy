/** What goes wrong when a restart does not see the checkpoints of all tables. */
module UnsafeRestart {
  import opened Prelude
  import opened ParquetBuffers
  import opened ProcessorStatus
  import opened RestartPoints
  import opened VersionTracker
  import opened Pipeline
  import opened CrashSafety

  /** Each row carries the version it came from. */
  ghost predicate Versioned(cfg: Config) {
    forall t, v: nat, r :: r in cfg.ledger(t, v) ==> r.version == v
  }

  /** Row `r` of table `t` is claimed by the table's checkpoint but is in no uploaded object. */
  ghost predicate Lost(cfg: Config, s: State, t: Table, v: nat, r: Row) {
    && t in cfg.tables && t in s.status
    && cfg.initial <= v <= s.status[t].lastSuccessVersion
    && r in cfg.ledger(t, v)
    && forall o :: o in ObjectsOf(s.uploads, t) ==> r !in o
  }

  // ---------------------------------------------------------------- the run after the restart

  ghost function OneVersion(v: nat): (r: Metadata) {
    Metadata(v, v, None, None, 0)
  }

  ghost function Sizes(cfg: Config): (r: map<Table, nat>) {
    map t | t in cfg.tables :: 1
  }

  ghost function Entry(cfg: Config, v: nat): (r: map<Table, Metadata>) {
    map t | t in cfg.tables :: OneVersion(v)
  }

  ghost function Buffered(cfg: Config, s: State): (r: State) {
    s.(received := true,
       buffers := map t | t in cfg.tables :: Buffer(Rows(cfg, t, s.start, s.start + 1), 1, Some(OneVersion(s.start))))
  }

  ghost function Uploaded(cfg: Config, s: State, start: nat): (r: map<Table, seq<seq<Row>>>) {
    map t | t in s.uploads.Keys + Sizes(cfg).Keys ::
      if t in cfg.tables then AddObject(ObjectsOf(s.uploads, t), Rows(cfg, t, start, start + 1)) else s.uploads[t]
  }

  ghost function Drained(cfg: Config, s: State): (r: State) {
    s.(buffers := map[], channel := [Entry(cfg, s.start)], uploads := Uploaded(cfg, s, s.start))
  }

  lemma FirstBatchAbsorbed(cfg: Config, s: State, data: map<Table, Data>)
    requires s.buffers == map[] && cfg.maxSize >= 1 && data == DataFor(cfg, OneVersion(s.start), Sizes(cfg))
    ensures BatchAbsorbed(map[], Buffered(cfg, s).buffers, map[], data, OneVersion(s.start), cfg.maxSize, data.Keys)
    ensures FlushesStored(s.uploads, s.uploads, map[], data, OneVersion(s.start), cfg.maxSize, data.Keys)
  {
    var m := OneVersion(s.start);
    forall t | t in data
      ensures AbsorbAt(map[], data, m, cfg.maxSize, t) == Absorbed(None, BufferOf(Buffered(cfg, s).buffers, t), [], None)
    {
      assert EMPTY_BUFFER.rows + data[t].rows == data[t].rows;
    }
  }

  lemma BatchAfterRestart(cfg: Config, s: State)
    requires s.phase.Running? && s.buffers == map[] && !s.received && cfg.maxSize >= 1 && s.start < TWO_63
    ensures Next(cfg, s, Step.Batch(OneVersion(s.start), Sizes(cfg), Done, map[], Sizes(cfg).Keys), Buffered(cfg, s))
  {
    var data := DataFor(cfg, OneVersion(s.start), Sizes(cfg));
    FirstBatchAbsorbed(cfg, s, data);
    assert data.Keys == Sizes(cfg).Keys;
  }

  lemma EntryIsDrained(cfg: Config, s: State)
    requires s.buffers == Buffered(cfg, s).buffers
    ensures DrainedBy(Entry(cfg, s.start), s.buffers, false, s.buffers.Keys)
    ensures DrainsStored(s.uploads, Uploaded(cfg, s, s.start), s.buffers, s.buffers.Keys)
  {
  }

  lemma DrainAfterBatch(cfg: Config, s: State)
    requires s.phase.Running? && s.channel == [] && cfg.tables != []
    requires s.buffers == Buffered(cfg, s).buffers
    ensures Next(cfg, s, Drain(false, Done, Entry(cfg, s.start), s.buffers.Keys), Drained(cfg, s))
  {
    EntryIsDrained(cfg, s);
    assert cfg.tables[0] in Entry(cfg, s.start);
  }

  ghost function Tracked(cfg: Config, s: State): (r: State) {
    s.(last := Entry(cfg, s.start), channel := [])
  }

  lemma TrackAfterDrain(cfg: Config, s: State)
    requires s.phase.Running? && s.last == map[] && s.channel == [Entry(cfg, s.start)]
    ensures Next(cfg, s, Track(Done), Tracked(cfg, s))
  {
    assert s.last + s.channel[0] == Entry(cfg, s.start);
  }

  ghost function Saved(s: State, t: Table): (r: State)
    requires t in s.last
  {
    s.(status := s.status[t := SavedStatus(Get(s.status, t), s.last[t].endVersion, s.last[t].endTimestamp)])
  }

  lemma OneStep(cfg: Config, s: State, e: Step, s': State)
    requires Next(cfg, s, e, s')
    ensures IsRun(cfg, [s, s'], [e])
  {
  }

  lemma RestartAndBatch(cfg: Config, s: State, unread: set<Table>) returns (states: seq<State>, steps: seq<Step>)
    requires s.phase.Stopped? && cfg.maxSize >= 1 && Restarted(cfg, s, unread).start < TWO_63
    ensures IsRun(cfg, states, steps) && states[0] == s && states[|steps|] == Buffered(cfg, Restarted(cfg, s, unread))
  {
    var s1, restart := Restarted(cfg, s, unread), Step.Restart(unread);
    var batch := Step.Batch(OneVersion(s1.start), Sizes(cfg), Done, map[], Sizes(cfg).Keys);
    OneStep(cfg, s, restart, s1);
    BatchAfterRestart(cfg, s1);
    OneStep(cfg, s1, batch, Buffered(cfg, s1));
    states, steps := [s, s1] + [s1, Buffered(cfg, s1)][1..], [restart] + [batch];
    RunsJoin(cfg, [s, s1], [restart], [s1, Buffered(cfg, s1)], [batch]);
  }

  lemma DrainAndTrack(cfg: Config, s: State) returns (states: seq<State>, steps: seq<Step>)
    requires s.phase.Running? && s.channel == [] && s.last == map[] && cfg.tables != []
    requires s.buffers == Buffered(cfg, s).buffers
    ensures IsRun(cfg, states, steps) && states[0] == s && states[|steps|] == Tracked(cfg, Drained(cfg, s))
  {
    var s1 := Drained(cfg, s);
    var drain := Drain(false, Done, Entry(cfg, s.start), s.buffers.Keys);
    DrainAfterBatch(cfg, s);
    OneStep(cfg, s, drain, s1);
    TrackAfterDrain(cfg, s1);
    OneStep(cfg, s1, Track(Done), Tracked(cfg, s1));
    states, steps := [s, s1] + [s1, Tracked(cfg, s1)][1..], [drain] + [Track(Done)];
    RunsJoin(cfg, [s, s1], [drain], [s1, Tracked(cfg, s1)], [Track(Done)]);
  }

  ghost function AfterTrack(cfg: Config, s: State, unread: set<Table>): (r: State) {
    Tracked(cfg, Drained(cfg, Buffered(cfg, Restarted(cfg, s, unread))))
  }

  /** Restart, one batch, a poll, the tracker, and the save of one table. */
  lemma OrdinaryRun(cfg: Config, s: State, unread: set<Table>, t: Table) returns (states: seq<State>, steps: seq<Step>)
    requires s.phase.Stopped? && t in cfg.tables && cfg.maxSize >= 1 && Restarted(cfg, s, unread).start < TWO_63
    ensures IsRun(cfg, states, steps) && states[0] == s && states[|steps|] == Saved(AfterTrack(cfg, s, unread), t)
  {
    var a, p := RestartAndBatch(cfg, s, unread);
    var b, q := DrainAndTrack(cfg, Buffered(cfg, Restarted(cfg, s, unread)));
    RunsJoin(cfg, a, p, b, q);
    var s4, save := AfterTrack(cfg, s, unread), Step.Save(t);
    OneStep(cfg, s4, save, Saved(s4, t));
    RunsJoin(cfg, a + b[1..], p + q, [s4, Saved(s4, t)], [save]);
    states, steps := a + b[1..] + [s4, Saved(s4, t)][1..], p + q + [save];
  }

  /** A restart passes over version `v` of table `t`: it starts later, and the table's checkpoint,
      if there is one, lies before `v`. */
  ghost predicate Skips(cfg: Config, s: State, unread: set<Table>, t: Table, v: nat) {
    && t in cfg.tables && cfg.initial <= v < Restarted(cfg, s, unread).start
    && (t in s.status ==> s.status[t].lastSuccessVersion < v)
  }

  /** The condition for a safe restart fails exactly when the restart passes over some version of
      some table, be it that the table has no checkpoint or that its checkpoint was not read. */
  lemma UnsafeRestartSkips(cfg: Config, s: State, unread: set<Table>)
    requires InRange(Versions(s.status), cfg.tables)
    ensures !SafeToRestart(cfg, s, unread) <==> exists t, v :: Skips(cfg, s, unread, t, v)
  {
    var rows, start := Versions(s.status), Restarted(cfg, s, unread).start;
    StartSafeExactly(cfg.job, rows, cfg.tables, unread, cfg.initial);
    if !SafeToRestart(cfg, s, unread) {
      var t :| t in cfg.tables && !Resumes(rows, t, cfg.initial, start);
      assert Skips(cfg, s, unread, t, start - 1);
    }
    if t, v :| Skips(cfg, s, unread, t, v) {
      assert !Resumes(rows, t, cfg.initial, start);
    }
  }

  /** The converse of crash safety, for every pipeline and every unsafe restart: any row of a version
      that the restart passes over, and that has not been uploaded yet, is lost by an ordinary run of
      batch, poll, track and save. */
  lemma UnsafeRestartLosesRows(cfg: Config, s: State, unread: set<Table>, t: Table, v: nat, r: Row) returns (states: seq<State>, steps: seq<Step>)
    requires s.phase.Stopped? && cfg.maxSize >= 1 && Versioned(cfg)
    requires Skips(cfg, s, unread, t, v) && Restarted(cfg, s, unread).start < TWO_63
    requires r in cfg.ledger(t, v) && forall o :: o in ObjectsOf(s.uploads, t) ==> r !in o
    ensures IsRun(cfg, states, steps) && states[0] == s
    ensures Lost(cfg, states[|steps|], t, v, r)
  {
    states, steps := OrdinaryRun(cfg, s, unread, t);
    LostAfterRun(cfg, s, unread, t, v, r);
  }

  /** Uploading a later version brings back no row of an earlier one. */
  lemma LaterObjectsLack(cfg: Config, objects: seq<seq<Row>>, t: Table, start: nat, v: nat, r: Row)
    requires Versioned(cfg) && v < start && r in cfg.ledger(t, v)
    requires forall o :: o in objects ==> r !in o
    ensures forall o :: o in AddObject(objects, Rows(cfg, t, start, start + 1)) ==> r !in o
  {
    assert Rows(cfg, t, start, start + 1) == cfg.ledger(t, start) by {
      assert Rows(cfg, t, start, start) == [];
    }
    assert r !in cfg.ledger(t, start);
  }

  lemma LostAfterRun(cfg: Config, s: State, unread: set<Table>, t: Table, v: nat, r: Row)
    requires Versioned(cfg) && Skips(cfg, s, unread, t, v) && Restarted(cfg, s, unread).start < TWO_63
    requires r in cfg.ledger(t, v) && forall o :: o in ObjectsOf(s.uploads, t) ==> r !in o
    ensures Lost(cfg, Saved(AfterTrack(cfg, s, unread), t), t, v, r)
  {
    var start, last := Restarted(cfg, s, unread).start, Saved(AfterTrack(cfg, s, unread), t);
    LaterObjectsLack(cfg, ObjectsOf(s.uploads, t), t, start, v, r);
    assert last.uploads == Uploaded(cfg, Buffered(cfg, Restarted(cfg, s, unread)), start);
    assert ObjectsOf(last.uploads, t) == AddObject(ObjectsOf(s.uploads, t), Rows(cfg, t, start, start + 1));
    assert last.status[t].lastSuccessVersion >= start;
  }

  // ---------------------------------------------------------------- the loss can really happen

  const A := "a"
  const B := "b"
  const FIRST := Metadata(0, 5, None, None, 0)
  const SECOND := Metadata(6, 6, None, None, 0)
  const SIZES: map<Table, nat> := map[A := 10, B := 1]

  /** Two tables, a limit of 10 bytes, and one row per table and version. */
  ghost function Example(): (r: Config) {
    Config([A, B], 10, DefaultJob, 0, (t: Table, v: nat) => [Row(v, 0)])
  }

  ghost function AfterFirst(): (r: State) {
    var cfg := Example();
    State(Running, 0, true,
          map[A := Buffer(Rows(cfg, A, 0, 6), 10, Some(FIRST)), B := Buffer(Rows(cfg, B, 0, 6), 1, Some(FIRST))],
          [], map[], map[], map[])
  }

  /** The second batch flushes the large table but not the small one. */
  ghost function AfterSecond(): (r: State) {
    var cfg := Example();
    AfterFirst().(buffers := map[A := Buffer(Rows(cfg, A, 6, 7), 10, Some(SECOND)),
                                 B := Buffer(Rows(cfg, B, 0, 6) + Rows(cfg, B, 6, 7), 2, Some(FIRST.(endVersion := 6)))],
                  channel := [map[A := FIRST]],
                  uploads := map[A := [Rows(cfg, A, 0, 6)]])
  }

  ghost function HalfSaved(): (r: State) {
    AfterSecond().(phase := Stopped(None), channel := [], last := map[A := FIRST], status := map[A := StatusRow(5, None)])
  }

  lemma FirstAbsorbed(data: map<Table, Data>)
    requires data == DataFor(Example(), FIRST, SIZES)
    ensures data.Keys == {A, B}
    ensures BatchAbsorbed(map[], AfterFirst().buffers, map[], data, FIRST, 10, {A, B})
    ensures FlushesStored(map[], map[], map[], data, FIRST, 10, {A, B})
  {
    assert A[0] != B[0];
    forall t | t in data
      ensures AbsorbAt(map[], data, FIRST, 10, t) == Absorbed(None, BufferOf(AfterFirst().buffers, t), [], None)
    {
      assert EMPTY_BUFFER.rows + data[t].rows == data[t].rows;
    }
  }

  ghost function Empty(): (r: State) {
    State(Stopped(None), 0, false, map[], [], map[], map[], map[])
  }

  ghost function Ready(): (r: State) {
    Empty().(phase := Running)
  }

  lemma StartStep()
    ensures Next(Example(), Empty(), Restart({}), Ready())
  {
    MinVersionIsLeast(Versions(Empty().status), Example().tables, {});
  }

  lemma FirstStep()
    ensures Next(Example(), Ready(), Step.Batch(FIRST, SIZES, Done, map[], {A, B}), AfterFirst())
  {
    FirstAbsorbed(DataFor(Example(), FIRST, SIZES));
  }

  lemma SecondAbsorbed(data: map<Table, Data>)
    requires data == DataFor(Example(), SECOND, SIZES)
    ensures data.Keys == {A, B}
    ensures AbsorbAt(AfterFirst().buffers, data, SECOND, 10, A) ==
            Absorbed(None, AfterSecond().buffers[A], Rows(Example(), A, 0, 6), Some(FIRST))
    ensures A != B
    ensures AbsorbAt(AfterFirst().buffers, data, SECOND, 10, B) == Absorbed(None, AfterSecond().buffers[B], [], None)
  {
    assert A[0] != B[0];
    assert EMPTY_BUFFER.rows + data[A].rows == data[A].rows;
  }

  lemma SecondIsBatch(data: map<Table, Data>)
    requires data == DataFor(Example(), SECOND, SIZES)
    ensures BatchAbsorbed(AfterFirst().buffers, AfterSecond().buffers, map[A := FIRST], data, SECOND, 10, {A, B})
  {
    SecondAbsorbed(data);
  }

  lemma SecondIsStored(data: map<Table, Data>)
    requires data == DataFor(Example(), SECOND, SIZES)
    ensures FlushesStored(map[], AfterSecond().uploads, AfterFirst().buffers, data, SECOND, 10, {A, B})
  {
    SecondAbsorbed(data);
    assert Rows(Example(), A, 0, 6) != [];
  }

  lemma SecondStep()
    ensures Next(Example(), AfterFirst(), Step.Batch(SECOND, SIZES, Done, map[A := FIRST], {A, B}), AfterSecond())
  {
    var data := DataFor(Example(), SECOND, SIZES);
    assert data.Keys == {A, B};
    SecondIsBatch(data);
    SecondIsStored(data);
  }

  lemma FirstHalf() returns (states: seq<State>, steps: seq<Step>)
    ensures IsRun(Example(), states, steps) && Initial(Example(), states[0]) && states[|steps|] == AfterSecond()
  {
    StartStep();
    FirstStep();
    SecondStep();
    states, steps := ThreeSteps(Example(), Empty(), Restart({}), Ready(), Step.Batch(FIRST, SIZES, Done, map[], {A, B}), AfterFirst(),
                                Step.Batch(SECOND, SIZES, Done, map[A := FIRST], {A, B}), AfterSecond());
  }

  lemma ThreeSteps(cfg: Config, s0: State, e1: Step, s1: State, e2: Step, s2: State, e3: Step, s3: State)
    returns (states: seq<State>, steps: seq<Step>)
    requires Next(cfg, s0, e1, s1) && Next(cfg, s1, e2, s2) && Next(cfg, s2, e3, s3)
    ensures IsRun(cfg, states, steps) && states[0] == s0 && states[|steps|] == s3
  {
    OneStep(cfg, s0, e1, s1);
    OneMoreStep(cfg, [s0, s1], [e1], e2, s2);
    OneMoreStep(cfg, [s0, s1] + [s2], [e1] + [e2], e3, s3);
    states, steps := [s0, s1] + [s2] + [s3], [e1] + [e2] + [e3];
  }

  lemma SecondHalf() returns (states: seq<State>, steps: seq<Step>)
    ensures IsRun(Example(), states, steps) && states[0] == AfterSecond() && states[|steps|] == HalfSaved()
  {
    var cfg, s3 := Example(), AfterSecond();
    var s4 := s3.(last := s3.last + s3.channel[0], channel := s3.channel[1..]);
    var s5 := s4.(status := map[A := StatusRow(5, None)]);
    assert s4.last == map[A := FIRST];
    assert s5.status == s4.status[A := SavedStatus(None, 5, None)];
    states, steps := ThreeSteps(cfg, s3, Track(Done), s4, Step.Save(A), s5, Crash, HalfSaved());
  }

  lemma HalfSavedIsUnsafe()
    ensures Skips(Example(), HalfSaved(), {}, B, 0) && Restarted(Example(), HalfSaved(), {}).start == 5
  {
    assert A[0] != B[0];
    assert Example().tables[0] == A && Example().tables[1] == B;
    MinVersionIsLeast(Versions(HalfSaved().status), Example().tables, {});
  }

  /** A run from the very beginning that loses a row although every read succeeds: one table is
      flushed by size and saved while the other is still buffered, the process stops, and the restart
      skips the other ahead. */
  lemma RowsCanBeLost() returns (states: seq<State>, steps: seq<Step>)
    ensures IsRun(Example(), states, steps) && Initial(Example(), states[0])
    ensures Lost(Example(), states[|steps|], B, 0, Row(0, 0))
  {
    var a, p := FirstHalf();
    var b, q := SecondHalf();
    RunsJoin(Example(), a, p, b, q);
    HalfSavedIsUnsafe();
    var c, r := UnsafeRestartLosesRows(Example(), HalfSaved(), {}, B, 0, Row(0, 0));
    RunsJoin(Example(), a + b[1..], p + q, c, r);
    states, steps := a + b[1..] + c[1..], p + q + r;
  }
}

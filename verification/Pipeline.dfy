/** The whole Parquet pipeline as a state machine: batches are buffered, flushed to the bucket,
    tracked, checkpointed, and the process may stop at any point and be restarted from its
    checkpoints.  The steps are the contracts of the stages' own methods. */
module Pipeline {
  import opened Prelude
  import opened ParquetBuffers
  import opened ProcessorStatus
  import opened RestartPoints
  import opened VersionTracker

  /** `ledger(t, v)` are the rows that transaction `v` yields for table `t`. */
  datatype Config = Config(tables: seq<Table>, maxSize: nat, job: Job, initial: nat, ledger: (Table, nat) -> seq<Row>)

  datatype Phase = Running | Stopped(cause: Option<Failure>)

  /** `uploads` and `status` are durable; the rest is lost when the process stops.  `start` is the
      version the current or last run started from, `received` whether it has had a batch yet. */
  datatype State = State(
    phase: Phase,
    start: nat,
    received: bool,
    buffers: map<Table, Buffer>,
    channel: seq<map<Table, Metadata>>,
    last: map<Table, Metadata>,
    uploads: map<Table, seq<seq<Row>>>,
    status: map<Table, StatusRow>)

  /** A step together with what happened in it.  A failed batch or drain may have stored the
      objects of any of its tables before it stopped.  A restart does not see the checkpoints of the
      tables `unread`: reading them fails, or their names are not among those that are read. */
  datatype Step =
    | Batch(m: Metadata, sizes: map<Table, nat>, outcome: Outcome, flushed: map<Table, Metadata>, stored: set<Table>)
    | Drain(cleanup: bool, outcome: Outcome, flushed: map<Table, Metadata>, stored: set<Table>)
    | Track(outcome: Outcome)
    | Save(t: Table)
    | Crash
    | Restart(unread: set<Table>)

  /** The rows of table `t` for the versions from `lo` up to, but not including, `hi`. */
  ghost function Rows(cfg: Config, t: Table, lo: nat, hi: nat): (r: seq<Row>)
    decreases hi
  {
    if hi <= lo then [] else Rows(cfg, t, lo, hi - 1) + cfg.ledger(t, hi - 1)
  }

  lemma {:induction false} RowsSplit(cfg: Config, t: Table, lo: nat, mid: nat, hi: nat)
    requires lo <= mid <= hi
    ensures Rows(cfg, t, lo, mid) + Rows(cfg, t, mid, hi) == Rows(cfg, t, lo, hi)
    decreases hi
  {
    if mid < hi {
      RowsSplit(cfg, t, lo, mid, hi - 1);
    }
  }

  /** The extractors put every opted-in table into every batch, even with no rows. */
  ghost function DataFor(cfg: Config, m: Metadata, sizes: map<Table, nat>): (r: map<Table, Data>) {
    map t | t in sizes :: Data(Rows(cfg, t, m.startVersion, m.endVersion + 1), sizes[t])
  }

  /** Only a non-empty map is sent on. */
  function Send(channel: seq<map<Table, Metadata>>, flushed: map<Table, Metadata>): (r: seq<map<Table, Metadata>>) {
    if flushed == map[] then channel else channel + [flushed]
  }

  // ---------------------------------------------------------------- the steps

  ghost predicate BatchStep(cfg: Config, s: State, e: Step, s': State)
    requires e.Batch?
  {
    var data := DataFor(cfg, e.m, e.sizes);
    && s.phase.Running?
    && e.m.startVersion <= e.m.endVersion < TWO_63
    && (!s.received ==> e.m.startVersion == s.start)
    && (forall t :: t in cfg.tables <==> t in e.sizes)
    && (forall t :: t in e.sizes ==> e.sizes[t] > 0)
    && e.stored <= data.Keys
    && FlushesStored(s.uploads, s'.uploads, s.buffers, data, e.m, cfg.maxSize, e.stored)
    && s'.status == s.status && s'.start == s.start
    && match e.outcome
       case Done =>
         && e.stored == data.Keys
         && BatchAbsorbed(s.buffers, s'.buffers, e.flushed, data, e.m, cfg.maxSize, data.Keys)
         && s'.phase == Running && s'.received
         && s'.channel == Send(s.channel, e.flushed) && s'.last == s.last
       case Failed(f) =>
         && s'.phase == Stopped(Some(f))
         && exists t :: FailsAt(f, s.buffers, data, e.m, cfg.maxSize, t)
  }

  ghost predicate DrainStep(s: State, e: Step, s': State)
    requires e.Drain?
  {
    && s.phase.Running?
    && e.stored <= s.buffers.Keys
    && DrainsStored(s.uploads, s'.uploads, s.buffers, e.stored)
    && s'.status == s.status && s'.start == s.start
    && match e.outcome
       case Done =>
         && e.stored == s.buffers.Keys
         && DrainedBy(e.flushed, s.buffers, e.cleanup, s.buffers.Keys)
         && (forall t :: t in s.buffers && s.buffers[t].size > 0 ==> s.buffers[t].meta.Some?)
         && s'.buffers == map[]
         && s'.phase == Running && s'.received == s.received
         && s'.channel == Send(s.channel, e.flushed) && s'.last == s.last
       case Failed(f) =>
         && s'.phase == Stopped(Some(f)) && f != Gap
         && (f == MissingMetadata ==> exists t :: t in s.buffers && s.buffers[t].size > 0 && s.buffers[t].meta.None?)
  }

  ghost predicate TrackStep(s: State, e: Step, s': State)
    requires e.Track?
  {
    && s.phase.Running? && s.channel != []
    && e.outcome == (if Accepts(s.last, s.channel[0]) then Done else Failed(Gap))
    && s' == if e.outcome.Done? then s.(last := s.last + s.channel[0], channel := s.channel[1..])
             else s.(phase := Stopped(Some(Gap)))
  }

  /** One row of the save loop; the process may stop between any two rows. */
  ghost predicate SaveStep(s: State, e: Step, s': State)
    requires e.Save?
  {
    && s.phase.Running? && e.t in s.last
    && s' == s.(status := s.status[e.t := SavedStatus(Get(s.status, e.t), s.last[e.t].endVersion, s.last[e.t].endTimestamp)])
  }

  ghost function Restarted(cfg: Config, s: State, unread: set<Table>): (r: State) {
    State(Running, StartPoint(cfg.job, Versions(s.status), cfg.tables, unread, cfg.initial), false, map[], [], map[], s.uploads, s.status)
  }

  ghost predicate Next(cfg: Config, s: State, e: Step, s': State) {
    match e
    case Batch(_, _, _, _, _) => BatchStep(cfg, s, e, s')
    case Drain(_, _, _, _) => DrainStep(s, e, s')
    case Track(_) => TrackStep(s, e, s')
    case Save(_) => SaveStep(s, e, s')
    case Crash => s.phase.Running? && s' == s.(phase := Stopped(None))
    case Restart(unread) => s.phase.Stopped? && s' == Restarted(cfg, s, unread)
  }

  ghost predicate Initial(cfg: Config, s: State) {
    s == State(Stopped(None), cfg.initial, false, map[], [], map[], map[], map[])
  }

  /** Names a step of a run, so that a proof looks into the steps it names and no others. */
  ghost predicate At(i: int) { true }

  /** A run from `states[0]`, one state after each step. */
  ghost predicate IsRun(cfg: Config, states: seq<State>, steps: seq<Step>) {
    && |states| == |steps| + 1
    && forall i {:trigger At(i)} :: At(i) && 0 <= i < |steps| ==> Next(cfg, states[i], steps[i], states[i + 1])
  }

  lemma StepAt(cfg: Config, states: seq<State>, steps: seq<Step>, i: nat)
    requires IsRun(cfg, states, steps) && i < |steps|
    ensures Next(cfg, states[i], steps[i], states[i + 1])
  {
    assert At(i);
  }

  lemma OneMoreStep(cfg: Config, states: seq<State>, steps: seq<Step>, e: Step, s': State)
    requires IsRun(cfg, states, steps) && Next(cfg, states[|steps|], e, s')
    ensures IsRun(cfg, states + [s'], steps + [e])
  {
    forall i | At(i) && 0 <= i < |steps + [e]|
      ensures Next(cfg, (states + [s'])[i], (steps + [e])[i], (states + [s'])[i + 1])
    {
      if i < |steps| {
        StepAt(cfg, states, steps, i);
      }
    }
  }

  lemma RunsJoin(cfg: Config, a: seq<State>, p: seq<Step>, b: seq<State>, q: seq<Step>)
    requires IsRun(cfg, a, p) && IsRun(cfg, b, q) && a[|a| - 1] == b[0]
    ensures IsRun(cfg, a + b[1..], p + q)
  {
    forall i | At(i) && 0 <= i < |p + q|
      ensures Next(cfg, (a + b[1..])[i], (p + q)[i], (a + b[1..])[i + 1])
    {
      if i < |p| {
        StepAt(cfg, a, p, i);
      } else {
        StepAt(cfg, b, q, i - |p|);
      }
    }
  }

  // ---------------------------------------------------------------- one table's view of a state

  function Queue(channel: seq<map<Table, Metadata>>, t: Table): (r: seq<Metadata>) {
    if channel == [] then []
    else (if t in channel[0] then [channel[0][t]] else []) + Queue(channel[1..], t)
  }

  lemma QueueAppend(channel: seq<map<Table, Metadata>>, entry: map<Table, Metadata>, t: Table)
    ensures Queue(channel + [entry], t) == Queue(channel, t) + if t in entry then [entry[t]] else []
  {
    if channel != [] {
      assert (channel + [entry])[1..] == channel[1..] + [entry];
    } else {
      assert (channel + [entry])[1..] == [];
    }
  }

  lemma QueueSend(channel: seq<map<Table, Metadata>>, flushed: map<Table, Metadata>, t: Table)
    ensures Queue(Send(channel, flushed), t) == Queue(channel, t) + if t in flushed then [flushed[t]] else []
  {
    QueueAppend(channel, flushed, t);
  }

  /** What of a state concerns one table. */
  datatype View = View(
    buffer: Buffer,
    objects: seq<seq<Row>>,
    queue: seq<Metadata>,
    last: Option<Metadata>,
    status: Option<StatusRow>)

  ghost function ViewOf(s: State, t: Table): (r: View) {
    View(BufferOf(s.buffers, t), ObjectsOf(s.uploads, t), Queue(s.channel, t), Get(s.last, t), Get(s.status, t))
  }

  /** A successful batch, seen from one table. */
  ghost function AbsorbView(v: View, d: Data, m: Metadata, max: nat): (r: View) {
    var a := Absorb(v.buffer, d, m, max);
    v.(buffer := a.buffer, objects := AddObject(v.objects, a.uploaded),
       queue := v.queue + if a.flushed.Some? then [a.flushed.value] else [])
  }

  /** A successful poll or cleanup, seen from one table. */
  ghost function DrainView(v: View, cleanup: bool): (r: View) {
    if v.buffer.size == 0 || v.buffer.meta.None? then v.(buffer := EMPTY_BUFFER)
    else v.(buffer := EMPTY_BUFFER, objects := AddObject(v.objects, v.buffer.rows),
            queue := v.queue + [DrainedMetadata(v.buffer, cleanup)])
  }

  lemma BatchView(cfg: Config, s: State, e: Step, s': State, t: Table)
    requires e.Batch? && BatchStep(cfg, s, e, s') && e.outcome.Done? && t in cfg.tables
    ensures var d := DataFor(cfg, e.m, e.sizes)[t];
            && ViewOf(s', t) == AbsorbView(ViewOf(s, t), d, e.m, cfg.maxSize)
            && Absorb(BufferOf(s.buffers, t), d, e.m, cfg.maxSize).failure.None?
  {
    QueueSend(s.channel, e.flushed, t);
    var data := DataFor(cfg, e.m, e.sizes);
    assert t in data.Keys;
    assert t in e.flushed <==> AbsorbAt(s.buffers, data, e.m, cfg.maxSize, t).flushed.Some?;
  }

  lemma DrainedView(s: State, e: Step, s': State, t: Table)
    requires e.Drain? && DrainStep(s, e, s') && e.outcome.Done?
    ensures ViewOf(s', t) == DrainView(ViewOf(s, t), e.cleanup)
    ensures BufferOf(s.buffers, t).size > 0 ==> BufferOf(s.buffers, t).meta.Some?
  {
    QueueSend(s.channel, e.flushed, t);
  }

  lemma TrackView(s: State, e: Step, s': State, t: Table)
    requires e.Track? && TrackStep(s, e, s') && e.outcome.Done?
    ensures var v, v' := ViewOf(s, t), ViewOf(s', t);
            || v' == v
            || (&& v.queue != [] && v' == v.(queue := v.queue[1..], last := Some(v.queue[0]))
                && (v.last.Some? ==> v.last.value.endVersion + 1 == v.queue[0].startVersion))
  {
    var entry := s.channel[0];
    if t in entry {
      assert ViewOf(s, t).queue == [entry[t]] + Queue(s.channel[1..], t);
    }
  }
}

/** Over a whole run of the pipeline between two restarts nothing is lost, repeated or reordered:
    what a table has uploaded and buffered is what the stream delivered. */
module PipelineConservation {
  import opened Prelude
  import opened ParquetBuffers
  import opened ProcessorStatus
  import opened Pipeline
  import opened GapDetection

  /** What one step means for the buffer of table `t`. */
  ghost function EventOf(cfg: Config, e: Step, t: Table): (r: seq<Event>) {
    match e
    case Batch(m, sizes, _, _, _) => if t in sizes then [Event.Batch(Put(DataFor(cfg, m, sizes)[t], m))] else []
    case Drain(cleanup, _, _, _) => [Flush(cleanup)]
    case _ => []
  }

  ghost function EventsOf(cfg: Config, steps: seq<Step>, t: Table): (r: seq<Event>) {
    if steps == [] then [] else EventsOf(cfg, steps[..|steps| - 1], t) + EventOf(cfg, steps[|steps| - 1], t)
  }

  /** The version range that a step emits for table `t`, if any. */
  ghost function RangeFrom(e: Step, t: Table): (r: seq<Metadata>) {
    if (e.Batch? || e.Drain?) && t in e.flushed then [e.flushed[t]] else []
  }

  ghost function RangesFrom(steps: seq<Step>, t: Table): (r: seq<Metadata>) {
    if steps == [] then [] else RangesFrom(steps[..|steps| - 1], t) + RangeFrom(steps[|steps| - 1], t)
  }

  /** The lane `l` is what a table has buffered and what it has uploaded on top of `before`. */
  ghost predicate Matches(before: seq<seq<Row>>, l: Lane, v: View) {
    v.buffer == l.buffer && v.objects == before + l.objects
  }

  ghost predicate Sized(events: seq<Event>) {
    forall e :: e in events && e.Batch? ==> e.put.data.size > 0
  }

  lemma AddBehind(before: seq<seq<Row>>, objects: seq<seq<Row>>, rows: seq<Row>)
    ensures AddObject(before + objects, rows) == before + AddObject(objects, rows)
  {
  }

  lemma BatchMatches(before: seq<seq<Row>>, l: Lane, v: View, p: Put, max: nat)
    requires Matches(before, l, v) && Absorb(v.buffer, p.data, p.meta, max).failure.None?
    ensures var after := LaneStep(l, Event.Batch(p), max);
            after.Some? && Matches(before, after.value, AbsorbView(v, p.data, p.meta, max))
  {
    AddBehind(before, l.objects, Absorb(v.buffer, p.data, p.meta, max).uploaded);
  }

  lemma DrainMatches(before: seq<seq<Row>>, l: Lane, v: View, cleanup: bool, max: nat)
    requires Matches(before, l, v) && (v.buffer.size > 0 ==> v.buffer.meta.Some?)
    ensures var after := LaneStep(l, Flush(cleanup), max);
            after.Some? && Matches(before, after.value, DrainView(v, cleanup))
  {
    AddBehind(before, l.objects, v.buffer.rows);
  }

  lemma BatchRange(cfg: Config, s: State, e: Step, s': State, t: Table, l: Lane)
    requires e.Batch? && BatchStep(cfg, s, e, s') && e.outcome.Done? && t in cfg.tables && l.buffer == BufferOf(s.buffers, t)
    ensures var after := LaneStep(l, Event.Batch(Put(DataFor(cfg, e.m, e.sizes)[t], e.m)), cfg.maxSize);
            after.Some? ==> after.value.emitted == l.emitted + RangeFrom(e, t)
  {
    var data := DataFor(cfg, e.m, e.sizes);
    assert t in data.Keys;
    assert t in e.flushed <==> AbsorbAt(s.buffers, data, e.m, cfg.maxSize, t).flushed.Some?;
  }

  lemma DrainRange(s: State, e: Step, s': State, t: Table, l: Lane, max: nat)
    requires e.Drain? && DrainStep(s, e, s') && e.outcome.Done? && l.buffer == BufferOf(s.buffers, t)
    ensures var after := LaneStep(l, Flush(e.cleanup), max);
            after.Some? ==> after.value.emitted == l.emitted + RangeFrom(e, t)
  {
  }

  /** A step that leaves the process running moves the lane by the step's event. */
  lemma StepMatches(cfg: Config, s: State, e: Step, s': State, t: Table, before: seq<seq<Row>>, l: Lane) returns (l': Lane)
    requires Next(cfg, s, e, s') && !e.Restart? && s'.phase.Running? && t in cfg.tables
    requires Matches(before, l, ViewOf(s, t))
    ensures Matches(before, l', ViewOf(s', t)) && l'.emitted == l.emitted + RangeFrom(e, t)
    ensures EventOf(cfg, e, t) == [] ==> l' == l
    ensures EventOf(cfg, e, t) != [] ==> LaneStep(l, EventOf(cfg, e, t)[0], cfg.maxSize) == Some(l')
  {
    l' := l;
    match e
    case Batch(m, sizes, _, _, _) =>
      BatchView(cfg, s, e, s', t);
      var p := Put(DataFor(cfg, m, sizes)[t], m);
      BatchMatches(before, l, ViewOf(s, t), p, cfg.maxSize);
      BatchRange(cfg, s, e, s', t, l);
      l' := LaneStep(l, Event.Batch(p), cfg.maxSize).value;
    case Drain(cleanup, _, _, _) =>
      DrainedView(s, e, s', t);
      DrainMatches(before, l, ViewOf(s, t), cleanup, cfg.maxSize);
      DrainRange(s, e, s', t, l, cfg.maxSize);
      l' := LaneStep(l, Flush(cleanup), cfg.maxSize).value;
    case Track(_) =>
      TrackView(s, e, s', t);
    case Save(_) =>
  }

  /** A run that goes on was going on before, and its batches have a size. */
  lemma RunningBefore(cfg: Config, states: seq<State>, steps: seq<Step>, j: nat, t: Table)
    requires IsRun(cfg, states, steps) && j < |steps| && !steps[j].Restart? && states[j + 1].phase.Running?
    ensures states[j].phase.Running? && Sized(EventOf(cfg, steps[j], t))
  {
    StepAt(cfg, states, steps, j);
  }

  lemma RunStepMatches(cfg: Config, states: seq<State>, steps: seq<Step>, j: nat, t: Table, before: seq<seq<Row>>, l: Lane) returns (l': Lane)
    requires IsRun(cfg, states, steps) && j < |steps| && !steps[j].Restart? && states[j + 1].phase.Running? && t in cfg.tables
    requires Matches(before, l, ViewOf(states[j], t))
    ensures Matches(before, l', ViewOf(states[j + 1], t)) && l'.emitted == l.emitted + RangeFrom(steps[j], t)
    ensures EventOf(cfg, steps[j], t) == [] ==> l' == l
    ensures EventOf(cfg, steps[j], t) != [] ==> LaneStep(l, EventOf(cfg, steps[j], t)[0], cfg.maxSize) == Some(l')
  {
    StepAt(cfg, states, steps, j);
    l' := StepMatches(cfg, states[j], steps[j], states[j + 1], t, before, l);
  }

  lemma PrefixNext(cfg: Config, steps: seq<Step>, j: nat, t: Table)
    requires j < |steps|
    ensures EventsOf(cfg, steps[..j + 1], t) == EventsOf(cfg, steps[..j], t) + EventOf(cfg, steps[j], t)
    ensures RangesFrom(steps[..j + 1], t) == RangesFrom(steps[..j], t) + RangeFrom(steps[j], t)
  {
    assert steps[..j + 1][..j] == steps[..j];
  }

  /** The buffer and the bucket of a table are a run of its lane. */
  lemma {:induction false} RunIsLane(cfg: Config, states: seq<State>, steps: seq<Step>, i: nat, t: Table) returns (l: Lane)
    requires IsRun(cfg, states, steps) && Fresh(states[0]) && i <= |steps| && t in cfg.tables
    requires states[i].phase.Running? && forall e :: e in steps ==> !e.Restart?
    ensures RunLane(EventsOf(cfg, steps[..i], t), cfg.maxSize) == Some(l)
    ensures Matches(ObjectsOf(states[0].uploads, t), l, ViewOf(states[i], t)) && l.emitted == RangesFrom(steps[..i], t)
    ensures Sized(EventsOf(cfg, steps[..i], t))
  {
    if i == 0 {
      l := Lane(EMPTY_BUFFER, [], []);
    } else {
      var j := i - 1;
      assert steps[j] in steps;
      RunningBefore(cfg, states, steps, j, t);
      var front := RunIsLane(cfg, states, steps, j, t);
      l := RunStepMatches(cfg, states, steps, j, t, ObjectsOf(states[0].uploads, t), front);
      PrefixNext(cfg, steps, j, t);
      LaneNext(EventsOf(cfg, steps[..j], t), EventOf(cfg, steps[j], t), cfg.maxSize, front, l);
    }
  }

  lemma LaneNext(events: seq<Event>, more: seq<Event>, max: nat, front: Lane, l: Lane)
    requires RunLane(events, max) == Some(front) && |more| <= 1
    requires if more == [] then l == front else LaneStep(front, more[0], max) == Some(l)
    ensures RunLane(events + more, max) == Some(l)
  {
    if more == [] {
      assert events + more == events;
    } else {
      assert (events + more)[..|events + more| - 1] == events;
    }
  }

  /** Row conservation for the running pipeline: since the last restart each table has uploaded and
      buffered exactly the rows delivered for it, in order. */
  lemma RunConservesRows(cfg: Config, states: seq<State>, steps: seq<Step>, i: nat, t: Table) returns (added: seq<seq<Row>>)
    requires IsRun(cfg, states, steps) && Fresh(states[0]) && i <= |steps| && t in cfg.tables
    requires states[i].phase.Running? && forall e :: e in steps ==> !e.Restart?
    ensures ObjectsOf(states[i].uploads, t) == ObjectsOf(states[0].uploads, t) + added
    ensures Flatten(added) + BufferOf(states[i].buffers, t).rows == RowsOf(Puts(EventsOf(cfg, steps[..i], t)))
  {
    var l := RunIsLane(cfg, states, steps, i, t);
    RowConservation(EventsOf(cfg, steps[..i], t), cfg.maxSize);
    added := l.objects;
  }

  /** The delivered batches are regrouped, in order: each flushed group is one uploaded object, the
      range emitted for it runs from the start of its first to the end of its last batch, and the
      buffer holds the batches since the last flush with their exact range. */
  lemma RunRegroupsBatches(cfg: Config, states: seq<State>, steps: seq<Step>, i: nat, t: Table) returns (groups: seq<seq<Put>>, pending: seq<Put>)
    requires IsRun(cfg, states, steps) && Fresh(states[0]) && i <= |steps| && t in cfg.tables
    requires states[i].phase.Running? && forall e :: e in steps ==> !e.Restart?
    ensures Flatten(groups) + pending == Puts(EventsOf(cfg, steps[..i], t))
    ensures Holds(BufferOf(states[i].buffers, t), pending)
    ensures |groups| == |RangesFrom(steps[..i], t)|
    ensures forall g :: 0 <= g < |groups| ==> Published(RangesFrom(steps[..i], t)[g], groups[g], ObjectsOf(states[i].uploads, t))
  {
    var l := RunIsLane(cfg, states, steps, i, t);
    groups, pending := BatchesAreRegrouped(EventsOf(cfg, steps[..i], t), cfg.maxSize);
    forall g | 0 <= g < |groups|
      ensures Published(RangesFrom(steps[..i], t)[g], groups[g], ObjectsOf(states[i].uploads, t))
    {
      assert Published(l.emitted[g], groups[g], l.objects);
    }
  }

  lemma {:induction false} OnlyBatches(cfg: Config, states: seq<State>, steps: seq<Step>, i: nat, t: Table)
    requires IsRun(cfg, states, steps) && i <= |steps| && states[i].phase.Running?
    requires forall e :: e in steps ==> !e.Restart? && !e.Drain?
    requires forall e :: e in steps && e.Batch? && t in e.sizes ==> e.sizes[t] <= cfg.maxSize
    ensures forall e :: e in EventsOf(cfg, steps[..i], t) ==> e.Batch? && 0 < e.put.data.size <= cfg.maxSize
  {
    if i > 0 {
      assert steps[i - 1] in steps;
      RunningBefore(cfg, states, steps, i - 1, t);
      OnlyBatches(cfg, states, steps, i - 1, t);
      PrefixNext(cfg, steps, i - 1, t);
    }
  }

  /** Between two drains the machine flushes a table only when it must: every uploaded group keeps within
      the limit and would have passed it with the batch delivered after it. */
  lemma RunFlushesFullGroups(cfg: Config, states: seq<State>, steps: seq<Step>, i: nat, t: Table) returns (groups: seq<seq<Put>>, pending: seq<Put>)
    requires IsRun(cfg, states, steps) && Fresh(states[0]) && i <= |steps| && t in cfg.tables
    requires states[i].phase.Running? && forall e :: e in steps ==> !e.Restart? && !e.Drain?
    requires forall e :: e in steps && e.Batch? && t in e.sizes ==> e.sizes[t] <= cfg.maxSize
    ensures Flatten(groups) + pending == Puts(EventsOf(cfg, steps[..i], t)) && FullGroups(groups, pending, cfg.maxSize)
    ensures |groups| == |RangesFrom(steps[..i], t)| && Holds(BufferOf(states[i].buffers, t), pending)
  {
    var l := RunIsLane(cfg, states, steps, i, t);
    OnlyBatches(cfg, states, steps, i, t);
    groups, pending := GroupsAreFull(EventsOf(cfg, steps[..i], t), cfg.maxSize);
  }
}

/** Gap detection by the buffer and the tracker together is exact, and no run with batches within
    the size limit reaches a missing-metadata panic. */
module GapDetection {
  import opened Prelude
  import opened ParquetBuffers
  import opened ProcessorStatus
  import opened VersionTracker
  import opened Pipeline

  type Range = (nat, nat)

  function RangeOf(m: Metadata): (r: Range) {
    (m.startVersion, m.endVersion)
  }

  function Ranges(ms: seq<Metadata>): (r: seq<Range>)
    ensures |r| == |ms|
  {
    seq(|ms|, i requires 0 <= i < |ms| => RangeOf(ms[i]))
  }

  /** Each range begins right after the one before it. */
  ghost predicate Contiguous(rs: seq<Range>) {
    forall i :: 0 <= i < |rs| - 1 ==> rs[i].1 + 1 == rs[i + 1].0
  }

  /** The version ranges of the batches delivered, in order. */
  function History(steps: seq<Step>): (r: seq<Range>) {
    if steps == [] then []
    else
      var e := steps[|steps| - 1];
      History(steps[..|steps| - 1]) + if e.Batch? then [RangeOf(e.m)] else []
  }

  function Tail(m: Option<Metadata>): (r: seq<Range>) {
    if m.Some? then [RangeOf(m.value)] else []
  }

  /** The ranges of one table still in the system, oldest first: tracked, in flight, buffered. */
  function Stages(v: View): (r: seq<Range>) {
    Tail(v.last) + Ranges(v.queue) + Tail(v.buffer.meta)
  }

  /** Everything delivered so far is reflected in the stages, up to joints already checked. */
  ghost predicate Reflects(rs: seq<Range>, hist: seq<Range>) {
    && (rs == [] <==> hist == [])
    && (hist != [] ==> rs[|rs| - 1].1 == hist[|hist| - 1].1)
    && (Contiguous(rs) <==> Contiguous(hist))
  }

  lemma ReflectsAppend(rs: seq<Range>, hist: seq<Range>, r: Range)
    requires Reflects(rs, hist)
    ensures Reflects(rs + [r], hist + [r])
  {
    ContiguousAppend(rs, r);
    ContiguousAppend(hist, r);
  }

  lemma ContiguousAppend(rs: seq<Range>, r: Range)
    ensures Contiguous(rs + [r]) <==> Contiguous(rs) && (rs != [] ==> rs[|rs| - 1].1 + 1 == r.0)
  {
    var all := rs + [r];
    if Contiguous(all) {
      forall i | 0 <= i < |rs| - 1
        ensures rs[i].1 + 1 == rs[i + 1].0
      {
        assert all[i].1 + 1 == all[i + 1].0;
      }
      if rs != [] {
        assert all[|rs| - 1].1 + 1 == all[|rs|].0;
      }
    }
  }

  /** A range that joins on to the last stage may be merged into it. */
  lemma ReflectsMerge(front: seq<Range>, l: Range, hist: seq<Range>, r: Range)
    requires Reflects(front + [l], hist) && l.1 + 1 == r.0
    ensures Reflects(front + [(l.0, r.1)], hist + [r])
  {
    ContiguousAppend(front, l);
    ContiguousAppend(front, (l.0, r.1));
    ContiguousAppend(hist, r);
  }

  lemma ContiguousTail(rs: seq<Range>)
    requires |rs| >= 2 && rs[0].1 + 1 == rs[1].0
    ensures Contiguous(rs) <==> Contiguous(rs[1..])
  {
    var tail := rs[1..];
    if Contiguous(tail) {
      forall i | 0 <= i < |rs| - 1
        ensures rs[i].1 + 1 == rs[i + 1].0
      {
        assert i > 0 ==> tail[i - 1].1 + 1 == tail[i].0;
      }
    }
    if Contiguous(rs) {
      forall i | 0 <= i < |tail| - 1
        ensures tail[i].1 + 1 == tail[i + 1].0
      {
        assert rs[i + 1].1 + 1 == rs[i + 2].0;
      }
    }
  }

  // ---------------------------------------------------------------- steps of one table

  ghost predicate Tracked(v: View, hist: seq<Range>) {
    Coherent(v.buffer) && Reflects(Stages(v), hist)
  }

  lemma RangesAppend(ms: seq<Metadata>, m: Metadata)
    ensures Ranges(ms + [m]) == Ranges(ms) + [RangeOf(m)]
  {
  }

  lemma BatchTracked(v: View, d: Data, m: Metadata, max: nat, hist: seq<Range>)
    requires Tracked(v, hist) && 0 < d.size
    requires Absorb(v.buffer, d, m, max).failure.None?
    ensures Tracked(AbsorbView(v, d, m, max), hist + [RangeOf(m)])
  {
    AbsorbKeepsCoherent(v.buffer, d, m, max);
    var front, v' := Tail(v.last) + Ranges(v.queue), AbsorbView(v, d, m, max);
    if v.buffer.size + d.size > max {
      RangesAppend(v.queue, v.buffer.meta.value);
      ReflectsAppend(Stages(v), hist, RangeOf(m));
      assert Stages(v') == Stages(v) + [RangeOf(m)];
    } else if v.buffer.meta.Some? {
      ReflectsMerge(front, RangeOf(v.buffer.meta.value), hist, RangeOf(m));
      assert v'.queue == v.queue;
    } else {
      ReflectsAppend(Stages(v), hist, RangeOf(m));
      assert v'.queue == v.queue && Stages(v') == Stages(v) + [RangeOf(m)];
    }
  }

  lemma BatchGap(v: View, d: Data, m: Metadata, max: nat, hist: seq<Range>)
    requires Tracked(v, hist) && 0 < d.size
    requires Absorb(v.buffer, d, m, max).failure == Some(Gap)
    ensures !Contiguous(hist + [RangeOf(m)])
  {
    AbsorbKeepsCoherent(v.buffer, d, m, max);
    ContiguousAppend(hist, RangeOf(m));
  }

  lemma DrainTracked(v: View, cleanup: bool, hist: seq<Range>)
    requires Tracked(v, hist)
    ensures Tracked(DrainView(v, cleanup), hist)
  {
    if v.buffer.size > 0 {
      RangesAppend(v.queue, DrainedMetadata(v.buffer, cleanup));
      assert Stages(DrainView(v, cleanup)) == Stages(v);
    }
  }

  lemma QueueHead(v: View)
    requires v.queue != []
    ensures Ranges(v.queue) == [RangeOf(v.queue[0])] + Ranges(v.queue[1..])
  {
  }

  lemma TrackTracked(v: View, hist: seq<Range>)
    requires Tracked(v, hist) && v.queue != []
    requires v.last.Some? ==> v.last.value.endVersion + 1 == v.queue[0].startVersion
    ensures Tracked(v.(queue := v.queue[1..], last := Some(v.queue[0])), hist)
  {
    QueueHead(v);
    var v' := v.(queue := v.queue[1..], last := Some(v.queue[0]));
    if v.last.Some? {
      assert Stages(v') == Stages(v)[1..];
      ContiguousTail(Stages(v));
    } else {
      assert Stages(v') == Stages(v);
    }
  }

  lemma TrackGap(v: View, hist: seq<Range>)
    requires Tracked(v, hist) && v.queue != [] && v.last.Some?
    requires v.last.value.endVersion + 1 != v.queue[0].startVersion
    ensures !Contiguous(hist)
  {
    QueueHead(v);
    assert Stages(v)[0] == RangeOf(v.last.value) && Stages(v)[1] == RangeOf(v.queue[0]);
  }

  // ---------------------------------------------------------------- steps of the pipeline

  /** A table that is not configured never shows up. */
  ghost predicate Idle(v: View) {
    v.buffer.size == 0 && v.queue == [] && v.last.None?
  }

  ghost predicate TableTracked(cfg: Config, s: State, t: Table, hist: seq<Range>) {
    if t in cfg.tables then Tracked(ViewOf(s, t), hist) else Idle(ViewOf(s, t))
  }

  ghost predicate AllTracked(cfg: Config, s: State, hist: seq<Range>) {
    match s.phase
    case Running => forall t :: TableTracked(cfg, s, t, hist)
    case Stopped(cause) => cause == Some(Gap) && !Contiguous(hist)
  }

  /** A batch within the limit, or any other step of an uninterrupted run whose uploads succeed. */
  ghost predicate Uninterrupted(cfg: Config, e: Step) {
    match e
    case Batch(_, sizes, outcome, _, _) => outcome != Failed(UploadFailed) && forall t :: t in sizes ==> sizes[t] <= cfg.maxSize
    case Drain(_, outcome, _, _) => outcome != Failed(UploadFailed)
    case Track(_) => true
    case Save(_) => true
    case Crash => false
    case Restart(_) => false
  }

  lemma BatchTable(cfg: Config, s: State, e: Step, s': State, t: Table, hist: seq<Range>)
    requires e.Batch? && BatchStep(cfg, s, e, s') && e.outcome.Done?
    requires TableTracked(cfg, s, t, hist)
    ensures TableTracked(cfg, s', t, hist + [RangeOf(e.m)])
  {
    if t in cfg.tables {
      BatchView(cfg, s, e, s', t);
      BatchTracked(ViewOf(s, t), DataFor(cfg, e.m, e.sizes)[t], e.m, cfg.maxSize, hist);
    } else {
      QueueSend(s.channel, e.flushed, t);
    }
  }

  lemma BatchFails(cfg: Config, s: State, e: Step, s': State, hist: seq<Range>)
    requires e.Batch? && BatchStep(cfg, s, e, s') && e.outcome.Failed? && Uninterrupted(cfg, e)
    requires forall t :: TableTracked(cfg, s, t, hist)
    ensures s'.phase == Stopped(Some(Gap)) && !Contiguous(hist + [RangeOf(e.m)])
  {
    var data := DataFor(cfg, e.m, e.sizes);
    var t :| FailsAt(e.outcome.failure, s.buffers, data, e.m, cfg.maxSize, t);
    assert TableTracked(cfg, s, t, hist);
    AbsorbKeepsCoherent(BufferOf(s.buffers, t), data[t], e.m, cfg.maxSize);
    BatchGap(ViewOf(s, t), data[t], e.m, cfg.maxSize, hist);
  }

  lemma DrainTable(cfg: Config, s: State, e: Step, s': State, t: Table, hist: seq<Range>)
    requires e.Drain? && DrainStep(s, e, s') && e.outcome.Done?
    requires TableTracked(cfg, s, t, hist)
    ensures TableTracked(cfg, s', t, hist)
  {
    DrainedView(s, e, s', t);
    if t in cfg.tables {
      DrainTracked(ViewOf(s, t), e.cleanup, hist);
    }
  }

  lemma DrainSucceeds(cfg: Config, s: State, e: Step, s': State, hist: seq<Range>)
    requires e.Drain? && DrainStep(s, e, s') && Uninterrupted(cfg, e)
    requires forall t :: TableTracked(cfg, s, t, hist)
    ensures e.outcome.Done?
  {
    forall t | t in s.buffers
      ensures s.buffers[t].size > 0 ==> s.buffers[t].meta.Some?
    {
      assert TableTracked(cfg, s, t, hist);
    }
  }

  lemma TrackTable(cfg: Config, s: State, e: Step, s': State, t: Table, hist: seq<Range>)
    requires e.Track? && TrackStep(s, e, s') && e.outcome.Done?
    requires TableTracked(cfg, s, t, hist)
    ensures TableTracked(cfg, s', t, hist)
  {
    TrackView(s, e, s', t);
    if t in cfg.tables && ViewOf(s', t) != ViewOf(s, t) {
      TrackTracked(ViewOf(s, t), hist);
    }
  }

  lemma TrackFails(cfg: Config, s: State, e: Step, s': State, hist: seq<Range>)
    requires e.Track? && TrackStep(s, e, s') && e.outcome.Failed?
    requires forall t :: TableTracked(cfg, s, t, hist)
    ensures !Contiguous(hist)
  {
    var t :| t in s.channel[0] && t in s.last && s.last[t].endVersion + 1 != s.channel[0][t].startVersion;
    assert TableTracked(cfg, s, t, hist);
    TrackGap(ViewOf(s, t), hist);
  }

  lemma StepTracks(cfg: Config, s: State, e: Step, s': State, hist: seq<Range>)
    requires AllTracked(cfg, s, hist) && Next(cfg, s, e, s') && Uninterrupted(cfg, e)
    ensures AllTracked(cfg, s', hist + if e.Batch? then [RangeOf(e.m)] else [])
  {
    match e
    case Batch(m, _, outcome, _, _) =>
      if outcome.Done? {
        forall t ensures TableTracked(cfg, s', t, hist + [RangeOf(m)]) {
          assert TableTracked(cfg, s, t, hist);
          BatchTable(cfg, s, e, s', t, hist);
        }
      } else {
        BatchFails(cfg, s, e, s', hist);
      }
    case Drain(_, _, _, _) =>
      DrainSucceeds(cfg, s, e, s', hist);
      assert hist + [] == hist;
      forall t ensures TableTracked(cfg, s', t, hist) {
        assert TableTracked(cfg, s, t, hist);
        DrainTable(cfg, s, e, s', t, hist);
      }
    case Track(outcome) =>
      assert hist + [] == hist;
      if outcome.Done? {
        forall t ensures TableTracked(cfg, s', t, hist) {
          assert TableTracked(cfg, s, t, hist);
          TrackTable(cfg, s, e, s', t, hist);
        }
      } else {
        TrackFails(cfg, s, e, s', hist);
      }
    case Save(_) =>
      assert hist + [] == hist;
      forall t ensures TableTracked(cfg, s', t, hist) {
        assert TableTracked(cfg, s, t, hist);
        assert ViewOf(s', t).(status := None) == ViewOf(s, t).(status := None);
      }
  }

  /** Just restarted: nothing buffered, in flight or tracked. */
  ghost predicate Fresh(s: State) {
    s.phase.Running? && s.buffers == map[] && s.channel == [] && s.last == map[]
  }

  lemma {:induction false} RunTracks(cfg: Config, states: seq<State>, steps: seq<Step>, i: nat)
    requires IsRun(cfg, states, steps) && Fresh(states[0]) && i <= |steps|
    requires forall e :: e in steps ==> Uninterrupted(cfg, e)
    ensures AllTracked(cfg, states[i], History(steps[..i]))
  {
    if i == 0 {
      forall t ensures TableTracked(cfg, states[0], t, []) {
        assert Stages(ViewOf(states[0], t)) == [];
      }
    } else {
      RunTracks(cfg, states, steps, i - 1);
      assert steps[i - 1] in steps && steps[..i][..i - 1] == steps[..i - 1];
      StepAt(cfg, states, steps, i - 1);
      StepTracks(cfg, states[i - 1], steps[i - 1], states[i], History(steps[..i - 1]));
    }
  }

  /** Gap detection is exact.  Take any run, wherever its size flushes, polls, tracking and saves
      fall, that has either stopped or been cleaned up and drained.  It stopped with a gap error
      exactly when two consecutive batches were not contiguous; nothing else stops it. */
  lemma GapDetectionExact(cfg: Config, states: seq<State>, steps: seq<Step>)
    requires IsRun(cfg, states, steps) && Fresh(states[0]) && cfg.tables != []
    requires forall e :: e in steps ==> Uninterrupted(cfg, e)
    requires states[|steps|].phase.Running? ==> states[|steps|].buffers == map[] && states[|steps|].channel == []
    ensures states[|steps|].phase == Stopped(Some(Gap)) <==> !Contiguous(History(steps))
    ensures states[|steps|].phase.Stopped? ==> states[|steps|].phase.cause == Some(Gap)
  {
    RunTracks(cfg, states, steps, |steps|);
    assert steps[..|steps|] == steps;
    var s, t := states[|steps|], cfg.tables[0];
    if s.phase.Running? {
      assert TableTracked(cfg, s, t, History(steps));
      assert |Stages(ViewOf(s, t))| <= 1;
    }
  }

  // ---------------------------------------------------------------- sizes

  ghost predicate Bounded(cfg: Config, s: State) {
    s.phase.Running? ==> forall t :: Coherent(BufferOf(s.buffers, t)) && BufferOf(s.buffers, t).size <= cfg.maxSize
  }

  lemma StepBounded(cfg: Config, s: State, e: Step, s': State)
    requires Bounded(cfg, s) && Next(cfg, s, e, s')
    requires e.Batch? ==> forall t :: t in e.sizes ==> e.sizes[t] <= cfg.maxSize
    ensures Bounded(cfg, s')
    ensures s.phase.Running? ==> s'.phase != Stopped(Some(MissingMetadata))
  {
    match e
    case Batch(m, sizes, outcome, _, _) =>
      var data := DataFor(cfg, m, sizes);
      forall t | t in data
        ensures var a := AbsorbAt(s.buffers, data, m, cfg.maxSize, t);
                && a.failure != Some(MissingMetadata)
                && (a.failure.None? ==> Coherent(a.buffer) && a.buffer.size <= cfg.maxSize)
      {
        AbsorbKeepsCoherent(BufferOf(s.buffers, t), data[t], m, cfg.maxSize);
      }
    case Drain(_, outcome, _, _) =>
      forall t | t in s.buffers && s.buffers[t].size > 0
        ensures s.buffers[t].meta.Some?
      {
        assert Coherent(BufferOf(s.buffers, t));
      }
    case Track(_) =>
    case Save(_) =>
    case Crash =>
    case Restart(_) =>
  }

  /** When no batch is larger than the limit, then over any run, with crashes and restarts, no
      buffer (so no size-triggered upload) is larger either, a buffer has metadata exactly when it
      has bytes, and no missing-metadata panic is reached. */
  lemma {:induction false} BuffersStayBounded(cfg: Config, states: seq<State>, steps: seq<Step>, i: nat)
    requires IsRun(cfg, states, steps) && Initial(cfg, states[0]) && i < |states|
    requires forall e, t :: e in steps && e.Batch? && t in e.sizes ==> e.sizes[t] <= cfg.maxSize
    ensures Bounded(cfg, states[i])
    ensures states[i].phase != Stopped(Some(MissingMetadata))
  {
    if i > 0 {
      BuffersStayBounded(cfg, states, steps, i - 1);
      assert steps[i - 1] in steps;
      StepAt(cfg, states, steps, i - 1);
      StepBounded(cfg, states[i - 1], steps[i - 1], states[i]);
    }
  }
}

/** Every version that a run handles fits a signed 64-bit column, whether or not its restarts were safe. */
module VersionBounds {
  import opened Prelude
  import opened ParquetBuffers
  import opened ProcessorStatus
  import opened RestartPoints
  import opened VersionTracker
  import opened Pipeline

  ghost predicate Fits(m: Metadata) {
    m.endVersion < TWO_63
  }

  ghost predicate Bounds(v: View, running: bool) {
    && (v.status.Some? ==> 0 <= v.status.value.lastSuccessVersion < TWO_63)
    && (running ==>
          && (v.buffer.meta.Some? ==> Fits(v.buffer.meta.value))
          && (forall q :: q in v.queue ==> Fits(q))
          && (v.last.Some? ==> Fits(v.last.value)))
  }

  ghost predicate InBounds(s: State, t: Table) {
    Bounds(ViewOf(s, t), s.phase.Running?)
  }

  lemma AbsorbInBounds(v: View, d: Data, m: Metadata, max: nat)
    requires Bounds(v, true) && Fits(m) && Absorb(v.buffer, d, m, max).failure.None?
    ensures Bounds(AbsorbView(v, d, m, max), true)
  {
  }

  lemma BatchInBounds(cfg: Config, s: State, e: Step, s': State, t: Table)
    requires e.Batch? && BatchStep(cfg, s, e, s') && e.outcome.Done? && t in cfg.tables && InBounds(s, t)
    ensures InBounds(s', t)
  {
    BatchView(cfg, s, e, s', t);
    AbsorbInBounds(ViewOf(s, t), DataFor(cfg, e.m, e.sizes)[t], e.m, cfg.maxSize);
  }

  /** What stops keeps its checkpoints. */
  lemma StopInBounds(s: State, s': State, t: Table)
    requires InBounds(s, t) && s'.phase.Stopped? && s'.status == s.status
    ensures InBounds(s', t)
  {
    assert ViewOf(s', t).status == ViewOf(s, t).status;
  }

  lemma DrainInBounds(s: State, e: Step, s': State, t: Table)
    requires e.Drain? && DrainStep(s, e, s') && InBounds(s, t)
    ensures InBounds(s', t)
  {
    if e.outcome.Done? {
      DrainedView(s, e, s', t);
    }
  }

  lemma TrackInBounds(s: State, e: Step, s': State, t: Table)
    requires e.Track? && TrackStep(s, e, s') && InBounds(s, t)
    ensures InBounds(s', t)
  {
    if e.outcome.Done? {
      TrackView(s, e, s', t);
    }
  }

  lemma StepInBounds(cfg: Config, s: State, e: Step, s': State, t: Table)
    requires Next(cfg, s, e, s') && t in cfg.tables && InBounds(s, t)
    ensures InBounds(s', t)
  {
    match e
    case Batch(_, _, outcome, _, _) =>
      if outcome.Done? {
        BatchInBounds(cfg, s, e, s', t);
      } else {
        StopInBounds(s, s', t);
      }
    case Drain(_, _, _, _) => DrainInBounds(s, e, s', t);
    case Track(_) => TrackInBounds(s, e, s', t);
    case Save(_) =>
    case Crash =>
    case Restart(_) =>
  }

  lemma {:induction false} RunInBounds(cfg: Config, states: seq<State>, steps: seq<Step>, i: nat, t: Table)
    requires IsRun(cfg, states, steps) && Initial(cfg, states[0]) && i < |states| && t in cfg.tables
    ensures InBounds(states[i], t)
  {
    if i > 0 {
      RunInBounds(cfg, states, steps, i - 1, t);
      StepAt(cfg, states, steps, i - 1);
      StepInBounds(cfg, states[i - 1], steps[i - 1], states[i], t);
    }
  }

  /** Over every run the stored checkpoints hold versions. */
  lemma CheckpointsInRange(cfg: Config, states: seq<State>, steps: seq<Step>, i: nat)
    requires IsRun(cfg, states, steps) && Initial(cfg, states[0]) && i < |states|
    ensures InRange(Versions(states[i].status), cfg.tables)
  {
    forall t | t in cfg.tables && t in states[i].status
      ensures 0 <= states[i].status[t].lastSuccessVersion < TWO_63
    {
      RunInBounds(cfg, states, steps, i, t);
      assert ViewOf(states[i], t).status == Some(states[i].status[t]);
    }
  }
}

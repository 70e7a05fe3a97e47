/** Checkpoint rows: how they are written, and which version a new run starts from. */
module ProcessorStatus {
  import opened Prelude

  /** The `as i64` and `as u64` casts between versions and database columns. */
  function AsI64(v: nat): (r: int)
    ensures v < TWO_63 ==> r == v
  {
    Wrap(v)
  }

  function AsU64(v: int): (r: nat)
    ensures 0 <= v < TWO_64 ==> r == v
  {
    v % TWO_64
  }

  datatype StatusRow = StatusRow(lastSuccessVersion: int, lastTimestamp: Option<int>)

  datatype BackfillStatus = InProgress | Complete

  datatype BackfillRow = BackfillRow(
    status: BackfillStatus,
    lastSuccessVersion: int,
    lastTimestamp: Option<int>,
    startVersion: int,
    endVersion: Option<int>)

  datatype Mode =
    | Default(initial: nat)
    | Backfill(id: string, initial: nat, ending: Option<nat>, overwrite: bool)
    | Testing(start: nat, ending: Option<nat>)

  // ---------------------------------------------------------------- saving

  /** The guarded upsert of `processor_status`: a newer stored row is left alone. */
  function SavedStatus(stored: Option<StatusRow>, v: nat, ts: Option<int>): (r: StatusRow) {
    var row := StatusRow(AsI64(v), ts);
    if stored.None? || stored.value.lastSuccessVersion <= row.lastSuccessVersion then row else stored.value
  }

  function BackfillRowFor(mode: Mode, v: nat, ts: Option<int>): (r: BackfillRow)
    requires mode.Backfill?
  {
    var reached := mode.ending.Some? && AsI64(v) >= AsI64(mode.ending.value);
    BackfillRow(if reached then Complete else InProgress, AsI64(v), ts, AsI64(mode.initial),
                if mode.ending.Some? then Some(AsI64(mode.ending.value)) else None)
  }

  /** The upsert of `backfill_processor_status`; the guard is dropped when checkpoints are overwritten. */
  function SavedBackfill(stored: Option<BackfillRow>, mode: Mode, v: nat, ts: Option<int>): (r: BackfillRow)
    requires mode.Backfill?
  {
    var row := BackfillRowFor(mode, v, ts);
    if stored.None? || mode.overwrite || stored.value.lastSuccessVersion <= row.lastSuccessVersion then row else stored.value
  }

  function Alias(processor: string, id: string): (r: string) {
    processor + "_" + id
  }

  /** The alias is the processor's name, an underscore and the backfill's. */
  lemma AliasParts(processor: string, id: string)
    ensures var a := Alias(processor, id);
            |a| == |processor| + 1 + |id| && a[..|processor|] == processor && a[|processor|] == '_' && a[|processor| + 1..] == id
  {
  }

  lemma AliasInjective(a: string, b: string, id: string)
    requires Alias(a, id) == Alias(b, id)
    ensures a == b
  {
    assert |Alias(a, id)| == |a| + 1 + |id| && |Alias(b, id)| == |b| + 1 + |id|;
    assert Alias(a, id)[..|a|] == a && Alias(b, id)[..|b|] == b;
  }

  // ---------------------------------------------------------------- a whole backfill job

  datatype Save = Save(version: nat, ts: Option<int>)

  /** The row of one backfill alias after a sequence of saves, starting with no row. */
  function AfterSaves(mode: Mode, saves: seq<Save>): (r: Option<BackfillRow>)
    requires mode.Backfill?
  {
    if saves == [] then None
    else
      var s := saves[|saves| - 1];
      Some(SavedBackfill(AfterSaves(mode, saves[..|saves| - 1]), mode, s.version, s.ts))
  }

  ghost predicate FixedJob(mode: Mode) {
    mode.Backfill? && !mode.overwrite && mode.ending.Some? && mode.ending.value < TWO_63 && mode.initial < TWO_63
  }

  /** Over all saves, in any order, the row is that of the last save with the greatest version, and is
      marked complete exactly when that version has reached the ending version. */
  lemma {:induction false} BackfillRowIsMaximum(mode: Mode, saves: seq<Save>) returns (i: nat)
    requires FixedJob(mode) && saves != []
    requires forall s :: s in saves ==> s.version < TWO_63
    ensures i < |saves|
    ensures forall j :: 0 <= j < |saves| ==> saves[j].version <= saves[i].version && (j > i ==> saves[j].version < saves[i].version)
    ensures var r := AfterSaves(mode, saves);
            && r.Some?
            && r.value.lastSuccessVersion == saves[i].version && r.value.lastTimestamp == saves[i].ts
            && (r.value.status == Complete <==> saves[i].version >= mode.ending.value)
            && r.value.startVersion == mode.initial && r.value.endVersion == Some(mode.ending.value)
  {
    var n := |saves| - 1;
    var front := saves[..n];
    assert saves[n] in saves && forall s :: s in front ==> s in saves;
    i := n;
    if n > 0 {
      var h := BackfillRowIsMaximum(mode, front);
      assert forall j :: 0 <= j < n ==> front[j] == saves[j];
      if saves[h].version > saves[n].version {
        i := h;
      }
    }
  }

  /** Further saves never lower the stored version and never undo `Complete`. */
  lemma {:induction false} BackfillOnlyAdvances(mode: Mode, saves: seq<Save>, more: seq<Save>)
    requires FixedJob(mode) && saves != []
    requires forall s :: s in saves + more ==> s.version < TWO_63
    ensures var a, b := AfterSaves(mode, saves), AfterSaves(mode, saves + more);
            && a.Some? && b.Some?
            && a.value.lastSuccessVersion <= b.value.lastSuccessVersion
            && (a.value.status == Complete ==> b.value.status == Complete)
  {
    assert forall s :: s in saves ==> s in saves + more;
    var i := BackfillRowIsMaximum(mode, saves);
    var j := BackfillRowIsMaximum(mode, saves + more);
    assert (saves + more)[i] == saves[i];
  }

  /** The row of default mode after a sequence of saves. */
  function AfterStatusSaves(saves: seq<Save>): (r: Option<StatusRow>) {
    if saves == [] then None
    else Some(SavedStatus(AfterStatusSaves(saves[..|saves| - 1]), saves[|saves| - 1].version, saves[|saves| - 1].ts))
  }

  /** It holds the greatest version saved, with the timestamp of the last save of that version. */
  lemma {:induction false} StatusRowIsMaximum(saves: seq<Save>) returns (i: nat)
    requires saves != [] && forall s :: s in saves ==> s.version < TWO_63
    ensures i < |saves| && AfterStatusSaves(saves) == Some(StatusRow(saves[i].version, saves[i].ts))
    ensures forall j :: 0 <= j < |saves| ==> saves[j].version <= saves[i].version && (j > i ==> saves[j].version < saves[i].version)
  {
    var n := |saves| - 1;
    var front := saves[..n];
    assert saves[n] in saves && forall s :: s in front ==> s in saves;
    i := n;
    if n > 0 {
      var h := StatusRowIsMaximum(front);
      assert forall j :: 0 <= j < n ==> front[j] == saves[j];
      if saves[h].version > saves[n].version {
        i := h;
      }
    }
  }

  /** With overwriting switched on the row is simply that of the last save. */
  lemma OverwriteKeepsLast(mode: Mode, saves: seq<Save>)
    requires mode.Backfill? && mode.overwrite && saves != []
    ensures AfterSaves(mode, saves) == Some(BackfillRowFor(mode, saves[|saves| - 1].version, saves[|saves| - 1].ts))
  {
  }

  /** So further saves lower the version exactly when the last of them is lower than the last one
      before, and undo `Complete` exactly when it falls short of the ending version. */
  lemma OverwriteUndoesExactly(mode: Mode, saves: seq<Save>, more: seq<Save>)
    requires mode.Backfill? && mode.overwrite && saves != [] && more != []
    requires mode.ending.Some? && mode.ending.value < TWO_63 && forall s :: s in saves + more ==> s.version < TWO_63
    ensures var a, b := AfterSaves(mode, saves), AfterSaves(mode, saves + more);
            var s, m := saves[|saves| - 1].version, more[|more| - 1].version;
            && a.Some? && b.Some?
            && (b.value.lastSuccessVersion < a.value.lastSuccessVersion <==> m < s)
            && (a.value.status == Complete && b.value.status == InProgress <==> m < mode.ending.value <= s)
  {
    OverwriteKeepsLast(mode, saves);
    OverwriteKeepsLast(mode, saves + more);
    assert saves[|saves| - 1] in saves + more && more[|more| - 1] in saves + more;
    assert (saves + more)[|saves + more| - 1] == more[|more| - 1];
  }

  /** An instance: a late save of version 3 after the job had completed at 10. */
  lemma OverwriteCanUndoComplete()
    ensures var mode := Backfill("job", 0, Some(10), true);
            && AfterSaves(mode, [Save(10, None)]).value.status == Complete
            && AfterSaves(mode, [Save(10, None)] + [Save(3, None)]).value.status == InProgress
  {
    var mode := Backfill("job", 0, Some(10), true);
    OverwriteUndoesExactly(mode, [Save(10, None)], [Save(3, None)]);
    OverwriteKeepsLast(mode, [Save(10, None)]);
  }

  // ---------------------------------------------------------------- starting versions

  /** The smallest version among the rows that can be read.  Missing rows and failed reads are
      skipped, they do not count as 0. */
  function MinVersion(rows: map<string, int>, names: seq<string>, unreadable: set<string>): (r: Option<nat>) {
    if names == [] then None
    else
      var rest := MinVersion(rows, names[..|names| - 1], unreadable);
      var name := names[|names| - 1];
      if name !in rows || name in unreadable then rest
      else if rest.None? || AsU64(rows[name]) < rest.value then Some(AsU64(rows[name]))
      else rest
  }

  /** What `MinVersion` means: the least of the readable rows, and `None` when there is none. */
  lemma {:induction false} MinVersionIsLeast(rows: map<string, int>, names: seq<string>, unreadable: set<string>)
    ensures var r := MinVersion(rows, names, unreadable);
            && (r.None? <==> forall n :: n in names ==> n !in rows || n in unreadable)
            && (forall n :: n in names && n in rows && n !in unreadable ==> r.Some? && r.value <= AsU64(rows[n]))
            && (r.Some? ==> exists n :: n in names && n in rows && n !in unreadable && AsU64(rows[n]) == r.value)
  {
    if names != [] {
      var k := |names| - 1;
      assert names == names[..k] + [names[k]];
      MinVersionIsLeast(rows, names[..k], unreadable);
    }
  }

  /** Default mode: the least checkpoint, but never before the configured initial version. */
  function DefaultStart(rows: map<string, int>, names: seq<string>, unreadable: set<string>, initial: nat): (r: nat)
    ensures r >= initial
  {
    var least := MinVersion(rows, names, unreadable);
    if least.Some? && least.value > initial then least.value else initial
  }

  function Versions(rows: map<string, StatusRow>): (r: map<string, int>) {
    map k | k in rows :: rows[k].lastSuccessVersion
  }

  function BackfillVersions(rows: map<string, BackfillRow>): (r: map<string, int>) {
    map k | k in rows :: rows[k].lastSuccessVersion
  }

  /** The backfill rows that can be read, by alias, in the order of the table names. */
  function Found(rows: map<string, BackfillRow>, id: string, names: seq<string>, unreadable: set<string>): (r: seq<string>)
    ensures forall a :: a in r ==> a in rows
  {
    if names == [] then []
    else
      var k := |names| - 1;
      Found(rows, id, names[..k], unreadable)
      + if names[k] !in unreadable && Alias(names[k], id) in rows then [Alias(names[k], id)] else []
  }

  ghost predicate AllComplete(rows: map<string, BackfillRow>, found: seq<string>) {
    forall a :: a in found ==> a in rows && rows[a].status == Complete
  }

  /** The version a run starts from; `None` lets the stream choose. */
  ghost function StartVersion(status: map<string, StatusRow>, backfill: map<string, BackfillRow>, mode: Mode,
                              names: seq<string>, unreadable: set<string>): (r: Option<nat>) {
    match mode
    case Default(initial) => Some(DefaultStart(Versions(status), names, unreadable, initial))
    case Testing(start, _) => Some(start)
    case Backfill(id, initial, ending, overwrite) =>
      var found := Found(backfill, id, names, unreadable);
      if found == [] || overwrite then Some(initial)
      else if AllComplete(backfill, found) then ending
      else
        var least := MinVersion(BackfillVersions(backfill), found, {});
        if least.Some? then Some(least.value + 1) else None
  }

  function ResetRow(mode: Mode, status: map<string, StatusRow>, names: seq<string>, unreadable: set<string>): (r: BackfillRow)
    requires mode.Backfill?
  {
    var least := MinVersion(Versions(status), names, unreadable);
    BackfillRow(InProgress, 0, None, AsI64(mode.initial),
                if mode.ending.Some? then Some(AsI64(mode.ending.value))
                else if least.Some? then Some(AsI64(least.value)) else None)
  }

  /** Starting a backfill that overwrites its checkpoint resets every row found; nothing else is touched. */
  ghost predicate RowsAtStart(now: map<string, BackfillRow>, was: map<string, BackfillRow>, status: map<string, StatusRow>, mode: Mode,
                              names: seq<string>, unreadable: set<string>) {
    if !mode.Backfill? || !mode.overwrite then now == was
    else
      && now.Keys == was.Keys
      && forall k :: k in was ==>
           now[k] == if k in Found(was, mode.id, names, unreadable) then ResetRow(mode, status, names, unreadable) else was[k]
  }

  lemma SingleName(rows: map<string, int>, backfill: map<string, BackfillRow>, id: string, name: string)
    ensures MinVersion(rows, [name], {}) == if name in rows then Some(AsU64(rows[name])) else None
    ensures Found(backfill, id, [name], {}) == if Alias(name, id) in backfill then [Alias(name, id)] else []
  {
    assert [name][..0] == [];
  }

  // ---------------------------------------------------------------- the tables

  class StatusStore {
    var status: map<string, StatusRow>
    var backfill: map<string, BackfillRow>

    constructor ()
      ensures status == map[] && backfill == map[]
    {
      status, backfill := map[], map[];
    }

    /** Saves the end version of the last good batch; testing mode stores nothing. */
    method SaveProcessorStatus(id: string, mode: Mode, endVersion: nat, ts: Option<int>)
      modifies this
      ensures status == if mode.Default? then old(status)[id := SavedStatus(Get(old(status), id), endVersion, ts)] else old(status)
      ensures backfill == if mode.Backfill?
                          then old(backfill)[Alias(id, mode.id) := SavedBackfill(Get(old(backfill), Alias(id, mode.id)), mode, endVersion, ts)]
                          else old(backfill)
    {
      match mode
      case Default(_) =>
        var row := StatusRow(AsI64(endVersion), ts);
        if id !in status || status[id].lastSuccessVersion <= row.lastSuccessVersion {
          status := status[id := row];
        }
      case Backfill(bid, _, _, overwrite) =>
        var alias := Alias(id, bid);
        var row := BackfillRowFor(mode, endVersion, ts);
        if alias !in backfill || overwrite || backfill[alias].lastSuccessVersion <= row.lastSuccessVersion {
          backfill := backfill[alias := row];
        }
      case Testing(_, _) =>
    }

    method MinProcessedVersion(names: seq<string>, unreadable: set<string>) returns (r: Option<nat>)
      ensures r == MinVersion(Versions(status), names, unreadable)
    {
      r := None;
      for i := 0 to |names|
        invariant r == MinVersion(Versions(status), names[..i], unreadable)
      {
        assert names[..i + 1][..i] == names[..i];
        if names[i] in status && names[i] !in unreadable {
          var v := AsU64(status[names[i]].lastSuccessVersion);
          if r.None? || v < r.value {
            r := Some(v);
          }
        }
      }
      assert names[..|names|] == names;
    }

    /** Chooses the starting version for all tables of a Parquet processor. */
    method GetParquetStartingVersion(mode: Mode, names: seq<string>, unreadable: set<string>) returns (r: Option<nat>)
      modifies this`backfill
      ensures r == StartVersion(status, old(backfill), mode, names, unreadable)
      ensures RowsAtStart(backfill, old(backfill), status, mode, names, unreadable)
    {
      match mode
      case Default(initial) =>
        var least := MinProcessedVersion(names, unreadable);
        r := Some(if least.Some? && least.value > initial then least.value else initial);
      case Testing(start, _) =>
        r := Some(start);
      case Backfill(id, initial, ending, overwrite) =>
        var found := Found(backfill, id, names, unreadable);
        if found == [] {
          return Some(initial);
        }
        if overwrite {
          ResetRows(found, mode, names, unreadable);
          return Some(initial);
        }
        var done := FindIncomplete(found);
        if done {
          return ending;
        }
        var least := LeastOf(found);
        r := Some(least + 1);
    }

    method FindIncomplete(found: seq<string>) returns (done: bool)
      requires forall a :: a in found ==> a in backfill
      ensures done == AllComplete(backfill, found)
    {
      done := true;
      for i := 0 to |found|
        invariant done == AllComplete(backfill, found[..i])
      {
        assert found[..i + 1] == found[..i] + [found[i]];
        done := done && backfill[found[i]].status == Complete;
      }
      assert found[..|found|] == found;
    }

    method LeastOf(found: seq<string>) returns (v: nat)
      requires found != [] && forall a :: a in found ==> a in backfill
      ensures MinVersion(BackfillVersions(backfill), found, {}) == Some(v)
    {
      SingleName(BackfillVersions(backfill), map[], "", found[0]);
      assert found[..1] == [found[0]];
      v := AsU64(backfill[found[0]].lastSuccessVersion);
      for i := 1 to |found|
        invariant MinVersion(BackfillVersions(backfill), found[..i], {}) == Some(v)
      {
        assert found[..i + 1][..i] == found[..i];
        var u := AsU64(backfill[found[i]].lastSuccessVersion);
        if u < v {
          v := u;
        }
      }
      assert found[..|found|] == found;
    }

    method ResetRows(found: seq<string>, mode: Mode, names: seq<string>, unreadable: set<string>)
      requires mode.Backfill? && mode.overwrite && found == Found(backfill, mode.id, names, unreadable)
      modifies this`backfill
      ensures RowsAtStart(backfill, old(backfill), status, mode, names, unreadable)
    {
      var least := MinProcessedVersion(names, unreadable);
      var end := if mode.ending.Some? then Some(AsI64(mode.ending.value))
                 else if least.Some? then Some(AsI64(least.value)) else None;
      var row := BackfillRow(InProgress, 0, None, AsI64(mode.initial), end);
      for i := 0 to |found|
        invariant backfill.Keys == old(backfill).Keys
        invariant forall k :: k in old(backfill) ==> backfill[k] == if k in found[..i] then row else old(backfill)[k]
      {
        assert found[..i + 1] == found[..i] + [found[i]] && found[i] in found;
        backfill := backfill[found[i] := row];
      }
      assert found[..|found|] == found;
    }

    /** The single-table processors: a failed read is an error, otherwise the choice is the same
        as for a Parquet processor with one table. */
    method GetStartingVersion(mode: Mode, name: string, readFails: bool) returns (ok: bool, r: Option<nat>)
      modifies this`backfill
      ensures ok <==> !readFails || mode.Testing?
      ensures !ok ==> backfill == old(backfill)
      ensures ok ==> r == StartVersion(status, old(backfill), mode, [name], {})
      ensures ok ==> RowsAtStart(backfill, old(backfill), status, mode, [name], {})
    {
      ok, r := true, None;
      if readFails && !mode.Testing? {
        return false, None;
      }
      SingleName(Versions(status), backfill, if mode.Backfill? then mode.id else "", name);
      match mode
      case Default(initial) =>
        var v := if name in status then AsU64(status[name].lastSuccessVersion) else 0;
        r := Some(if v > initial then v else initial);
      case Testing(start, _) =>
        r := Some(start);
      case Backfill(id, initial, ending, overwrite) =>
        var alias := Alias(name, id);
        if alias !in backfill {
          return true, Some(initial);
        }
        if overwrite {
          ResetRows([alias], mode, [name], {});
          return true, Some(initial);
        }
        SingleName(BackfillVersions(backfill), backfill, id, alias);
        r := if backfill[alias].status == Complete then ending else Some(AsU64(backfill[alias].lastSuccessVersion) + 1);
    }
  }
}

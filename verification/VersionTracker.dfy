/** The tracking stage of the Parquet pipeline: it checks the uploaded version ranges of each
    table for gaps and saves the end of the last good range. */
module VersionTracker {
  import opened Prelude
  import opened ParquetBuffers
  import opened ProcessorStatus

  /** An emitted map continues the tracked ranges of all its tables. */
  ghost predicate Accepts(last: map<Table, Metadata>, entry: map<Table, Metadata>) {
    forall t :: t in entry && t in last ==> last[t].endVersion + 1 == entry[t].startVersion
  }

  function FormatTableName(prefix: string, table: Table): (r: string) {
    prefix + "." + table
  }

  /** The name is the prefix, a dot and the table's name. */
  lemma FormatTableNameParts(prefix: string, table: Table)
    ensures var n := FormatTableName(prefix, table);
            |n| == |prefix| + 1 + |table| && n[..|prefix|] == prefix && n[|prefix|] == '.' && n[|prefix| + 1..] == table
  {
  }

  lemma FormatTableNameInjective(prefix: string, a: Table, b: Table)
    requires FormatTableName(prefix, a) == FormatTableName(prefix, b)
    ensures a == b
  {
    assert FormatTableName(prefix, a)[|prefix| + 1..] == a;
    assert FormatTableName(prefix, b)[|prefix| + 1..] == b;
  }

  /** Under which name a table's checkpoint is stored, in default mode and by a backfill. */
  function StatusKey(processor: string): (key: Table -> string) {
    (t: Table) => FormatTableName(processor, t)
  }

  function BackfillKey(processor: string, id: string): (key: Table -> string) {
    (t: Table) => Alias(FormatTableName(processor, t), id)
  }

  /** What is stored for a tracked range. */
  function StatusUpsert(): (row: (Option<StatusRow>, Metadata) -> StatusRow) {
    (o: Option<StatusRow>, m: Metadata) => SavedStatus(o, m.endVersion, m.endTimestamp)
  }

  function BackfillUpsert(mode: Mode): (row: (Option<BackfillRow>, Metadata) -> BackfillRow)
    requires mode.Backfill?
  {
    (o: Option<BackfillRow>, m: Metadata) => SavedBackfill(o, mode, m.endVersion, m.endTimestamp)
  }

  ghost predicate Injective(key: Table -> string) {
    forall a, b :: key(a) == key(b) ==> a == b
  }

  lemma KeysAreInjective(processor: string, id: string)
    ensures Injective(StatusKey(processor)) && Injective(BackfillKey(processor, id))
  {
    forall a, b | FormatTableName(processor, a) == FormatTableName(processor, b)
      ensures a == b
    {
      FormatTableNameInjective(processor, a, b);
    }
    forall a, b | Alias(FormatTableName(processor, a), id) == Alias(FormatTableName(processor, b), id)
      ensures a == b
    {
      AliasInjective(FormatTableName(processor, a), FormatTableName(processor, b), id);
      FormatTableNameInjective(processor, a, b);
    }
  }

  /** The tables `saved` have been upserted with their last good ranges, and no other row changed. */
  ghost predicate RowsSaved<V>(was: map<string, V>, now: map<string, V>, last: map<Table, Metadata>, key: Table -> string,
                               row: (Option<V>, Metadata) -> V, saved: set<Table>) {
    && (forall t :: t in saved && t in last ==> Get(now, key(t)) == Some(row(Get(was, key(t)), last[t])))
    && (forall k :: (forall t :: t in saved && t in last ==> k != key(t)) ==> Get(now, k) == Get(was, k))
  }

  /** The same, on whichever table the mode writes; the other one is untouched. */
  ghost predicate StoreSaved(status: map<string, StatusRow>, backfill: map<string, BackfillRow>,
                             status': map<string, StatusRow>, backfill': map<string, BackfillRow>,
                             last: map<Table, Metadata>, processor: string, mode: Mode, saved: set<Table>) {
    match mode
    case Default(_) => RowsSaved(status, status', last, StatusKey(processor), StatusUpsert(), saved) && backfill' == backfill
    case Backfill(id, _, _, _) => RowsSaved(backfill, backfill', last, BackfillKey(processor, id), BackfillUpsert(mode), saved) && status' == status
    case Testing(_, _) => status' == status && backfill' == backfill
  }

  class ParquetVersionTrackerStep {
    var last: map<Table, Metadata>
    const store: StatusStore
    const processor: string
    const mode: Mode

    constructor (store: StatusStore, processor: string, mode: Mode)
      ensures last == map[] && this.store == store && this.processor == processor && this.mode == mode
    {
      last := map[];
      this.store, this.processor, this.mode := store, processor, mode;
    }

    /** Accepts a map of uploaded ranges exactly when none of them leaves a gap. */
    method Process(entry: map<Table, Metadata>) returns (r: Outcome)
      modifies this
      ensures r == if Accepts(old(last), entry) then Done else Failed(Gap)
      ensures r.Done? ==> last == old(last) + entry
    {
      var todo := entry.Keys;
      ghost var done: map<Table, Metadata> := map[];
      while todo != {}
        invariant todo <= entry.Keys && done.Keys == entry.Keys - todo
        invariant forall t :: t in done ==> done[t] == entry[t]
        invariant last == old(last) + done
        invariant Accepts(old(last), done)
        decreases todo
      {
        var t :| t in todo;
        if t in last && last[t].endVersion + 1 != entry[t].startVersion {
          assert t in old(last) && last[t] == old(last)[t];
          return Failed(Gap);
        }
        last := last[t := entry[t]];
        done := done[t := entry[t]];
        todo := todo - {t};
      }
      assert done == entry;
      r := Done;
    }

    /** Saves the tracked tables one after the other; a database error stops in between. */
    method SaveProcessorStatus() returns (ok: bool, ghost saved: set<Table>)
      modifies store
      ensures saved <= last.Keys
      ensures ok ==> saved == last.Keys
      ensures StoreSaved(old(store.status), old(store.backfill), store.status, store.backfill, last, processor, mode, saved)
    {
      var todo := last.Keys;
      saved := {};
      while todo != {}
        invariant todo <= last.Keys && saved == last.Keys - todo
        invariant StoreSaved(old(store.status), old(store.backfill), store.status, store.backfill, last, processor, mode, saved)
        decreases todo
      {
        var t :| t in todo;
        ok := *;
        if !ok {
          return;
        }
        SaveTable(t, old(store.status), old(store.backfill), saved);
        saved, todo := saved + {t}, todo - {t};
      }
      ok := true;
    }

    /** One turn of the loop over the tracked tables. */
    method SaveTable(t: Table, ghost status: map<string, StatusRow>, ghost backfill: map<string, BackfillRow>, ghost saved: set<Table>)
      requires t in last && t !in saved
      requires StoreSaved(status, backfill, store.status, store.backfill, last, processor, mode, saved)
      modifies store
      ensures StoreSaved(status, backfill, store.status, store.backfill, last, processor, mode, saved + {t})
    {
      ghost var status1, backfill1 := store.status, store.backfill;
      store.SaveProcessorStatus(FormatTableName(processor, t), mode, last[t].endVersion, last[t].endTimestamp);
      KeysAreInjective(processor, if mode.Backfill? then mode.id else "");
      if mode.Default? {
        SaveOneRow(status, status1, store.status, last, StatusKey(processor), StatusUpsert(), saved, t);
      } else if mode.Backfill? {
        SaveOneRow(backfill, backfill1, store.backfill, last, BackfillKey(processor, mode.id), BackfillUpsert(mode), saved, t);
      }
    }
  }

  lemma SaveOneRow<V>(was: map<string, V>, mid: map<string, V>, now: map<string, V>, last: map<Table, Metadata>, key: Table -> string,
                      row: (Option<V>, Metadata) -> V, saved: set<Table>, t: Table)
    requires RowsSaved(was, mid, last, key, row, saved) && t in last && t !in saved && Injective(key)
    requires now == mid[key(t) := row(Get(mid, key(t)), last[t])]
    ensures RowsSaved(was, now, last, key, row, saved + {t})
  {
    assert Get(mid, key(t)) == Get(was, key(t));
  }
}

/** Table items: an append-only log of changes and a "current" table with one row per key, both
    filled from batches that may overlap, repeat and arrive in any order. */
module CurrentTables {
  import opened Prelude

  datatype ItemKey = ItemKey(tableHandle: string, keyHash: string)

  datatype Payload = Payload(key: string, decodedKey: string, decodedValue: Option<string>, isDeleted: bool)

  /** A write-set change; only table items matter here. */
  datatype WriteSetChange = TableItem(key: ItemKey, payload: Payload) | OtherChange

  /** `known` is false for a transaction without data, which is skipped. */
  datatype Txn = Txn(version: nat, known: bool, changes: seq<WriteSetChange>)

  /** A row of the log. */
  datatype Change = Change(version: nat, index: nat, key: ItemKey, payload: Payload)

  datatype CurrentItem = CurrentItem(payload: Payload, version: nat)

  type Current = map<ItemKey, CurrentItem>

  // ---------------------------------------------------------------- one batch

  /** The table-item changes among the first `n` changes of a transaction, with their positions. */
  function ChangesUpTo(txn: Txn, n: nat): (r: seq<Change>)
    requires n <= |txn.changes|
  {
    if n == 0 then []
    else
      var c := txn.changes[n - 1];
      ChangesUpTo(txn, n - 1) + if c.TableItem? then [Change(txn.version, n - 1, c.key, c.payload)] else []
  }

  function TxnChanges(txn: Txn): (r: seq<Change>) {
    if txn.known then ChangesUpTo(txn, |txn.changes|) else []
  }

  function Log(txns: seq<Txn>): (r: seq<Change>) {
    if txns == [] then [] else Log(txns[..|txns| - 1]) + TxnChanges(txns[|txns| - 1])
  }

  /** The last change of a key. */
  function LastOf(log: seq<Change>, k: ItemKey): (r: Option<Change>) {
    if log == [] then None
    else if log[|log| - 1].key == k then Some(log[|log| - 1])
    else LastOf(log[..|log| - 1], k)
  }

  function ItemOf(c: Option<Change>): (r: Option<CurrentItem>) {
    if c.Some? then Some(CurrentItem(c.value.payload, c.value.version)) else None
  }

  /** The map collapses the log to the last change of each key. */
  ghost predicate Collapses(rows: Current, log: seq<Change>) {
    forall k :: Get(rows, k) == ItemOf(LastOf(log, k))
  }

  lemma {:induction false} LastOfAppend(a: seq<Change>, b: seq<Change>, k: ItemKey)
    ensures LastOf(a + b, k) == if LastOf(b, k).Some? then LastOf(b, k) else LastOf(a, k)
  {
    if b == [] {
      assert a + b == a;
    } else {
      assert (a + b)[..|a + b| - 1] == a + b[..|b| - 1];
      LastOfAppend(a, b[..|b| - 1], k);
    }
  }

  lemma CollapseOne(rows: Current, log: seq<Change>, c: Change)
    requires Collapses(rows, log)
    ensures Collapses(rows[c.key := CurrentItem(c.payload, c.version)], log + [c])
  {
    forall k
      ensures LastOf(log + [c], k) == if c.key == k then Some(c) else LastOf(log, k)
    {
      assert (log + [c])[..|log|] == log;
    }
  }

  /** Splits a batch into its log and the collapsed map of current rows. */
  method ProcessTransactions(txns: seq<Txn>) returns (items: seq<Change>, current: Current)
    ensures items == Log(txns)
    ensures Collapses(current, items)
  {
    items, current := [], map[];
    for t := 0 to |txns|
      invariant items == Log(txns[..t])
      invariant Collapses(current, items)
    {
      assert txns[..t + 1][..t] == txns[..t];
      var txn := txns[t];
      if txn.known {
        for n := 0 to |txn.changes|
          invariant items == Log(txns[..t]) + ChangesUpTo(txn, n)
          invariant Collapses(current, items)
        {
          var change := txn.changes[n];
          if change.TableItem? {
            var c := Change(txn.version, n, change.key, change.payload);
            CollapseOne(current, items, c);
            items := items + [c];
            current := current[c.key := CurrentItem(c.payload, c.version)];
          }
        }
      }
    }
    assert txns[..|txns|] == txns;
  }

  // ---------------------------------------------------------------- storing

  /** The guarded upsert: a newer stored row is left alone. */
  function Upserted(stored: Option<CurrentItem>, row: Option<CurrentItem>): (r: Option<CurrentItem>) {
    if row.None? || (stored.Some? && stored.value.version > row.value.version) then stored else row
  }

  /** Positions in the log table. */
  type Position = (nat, nat)

  function PositionOf(c: Change): (r: Position) {
    (c.version, c.index)
  }

  class DefaultStorer {
    var items: map<Position, Change>
    var current: Current

    constructor ()
      ensures items == map[] && current == map[]
    {
      items, current := map[], map[];
    }

    /** Appends to the log; a position already taken is left alone. */
    method InsertTableItems(log: seq<Change>)
      modifies this`items
      ensures items == Inserted(old(items), log)
      ensures forall p :: p in old(items) ==> p in items && items[p] == old(items)[p]
    {
      for i := 0 to |log|
        invariant items == Inserted(old(items), log[..i])
        invariant forall p :: p in old(items) ==> p in items && items[p] == old(items)[p]
      {
        assert log[..i + 1][..i] == log[..i];
        if PositionOf(log[i]) !in items {
          items := items[PositionOf(log[i]) := log[i]];
        }
      }
      assert log[..|log|] == log;
    }

    /** Upserts the collapsed rows.  They have distinct keys, so neither their order nor the way
        they are cut into statements matters. */
    method InsertCurrentTableItems(rows: Current)
      modifies this`current
      ensures forall k :: Get(current, k) == Upserted(Get(old(current), k), Get(rows, k))
      ensures forall k :: k in rows && (k !in old(current) || old(current)[k].version <= rows[k].version) ==> k in current && current[k] == rows[k]
      ensures forall k :: k !in rows || (k in old(current) && old(current)[k].version > rows[k].version) ==> Get(current, k) == Get(old(current), k)
    {
      var todo := rows.Keys;
      while todo != {}
        invariant todo <= rows.Keys
        invariant forall k :: Get(current, k) == if k in todo then Get(old(current), k) else Upserted(Get(old(current), k), Get(rows, k))
        decreases todo
      {
        var k :| k in todo;
        assert Get(current, k) == Get(old(current), k);
        if k !in current || current[k].version <= rows[k].version {
          current := current[k := rows[k]];
        }
        todo := todo - {k};
      }
    }

    /** One batch: collapse, then store the log and the current rows. */
    method Process(txns: seq<Txn>)
      modifies this
      ensures Stores(old(items), old(current), txns, items, current)
    {
      var log, rows := ProcessTransactions(txns);
      InsertTableItems(log);
      InsertCurrentTableItems(rows);
    }
  }

  function Inserted(items: map<Position, Change>, log: seq<Change>): (r: map<Position, Change>) {
    if log == [] then items
    else
      var before, c := Inserted(items, log[..|log| - 1]), log[|log| - 1];
      if PositionOf(c) in before then before else before[PositionOf(c) := c]
  }

  /** What storing a batch does to the two tables. */
  ghost predicate Stores(items: map<Position, Change>, current: Current, txns: seq<Txn>, items': map<Position, Change>, current': Current) {
    && items' == Inserted(items, Log(txns))
    && forall k :: Get(current', k) == Upserted(Get(current, k), ItemOf(LastOf(Log(txns), k)))
  }

  // ---------------------------------------------------------------- the chain behind the batches

  /** A batch of transactions of one chain, in version order. */
  ghost predicate FromChain(chain: nat -> Txn, txns: seq<Txn>) {
    && (forall i :: 0 <= i < |txns| ==> txns[i] == chain(txns[i].version))
    && (forall i, j :: 0 <= i < j < |txns| ==> txns[i].version < txns[j].version)
  }

  ghost function Versions(txns: seq<Txn>): (r: set<nat>) {
    set i | 0 <= i < |txns| :: txns[i].version
  }

  ghost predicate Chained(chain: nat -> Txn) {
    forall v: nat :: chain(v).version == v
  }

  /** The last change that version `v` makes to key `k`. */
  ghost function LastAt(chain: nat -> Txn, v: nat, k: ItemKey): (r: Option<Change>) {
    LastOf(TxnChanges(chain(v)), k)
  }

  /** `row` is what the chain last did to `k` within the versions `seen`. */
  ghost predicate LatestByLog(chain: nat -> Txn, seen: set<nat>, k: ItemKey, row: Option<CurrentItem>) {
    match row
    case None => forall v :: v in seen ==> LastAt(chain, v, k).None?
    case Some(r) =>
      && r.version in seen
      && ItemOf(LastAt(chain, r.version, k)) == Some(r)
      && forall v :: v in seen && v > r.version ==> LastAt(chain, v, k).None?
  }

  lemma {:induction false} ChangesHaveVersion(txn: Txn, n: nat, k: ItemKey)
    requires n <= |txn.changes|
    ensures LastOf(ChangesUpTo(txn, n), k).Some? ==> LastOf(ChangesUpTo(txn, n), k).value.version == txn.version
  {
    if n > 0 {
      ChangesHaveVersion(txn, n - 1, k);
      var c, before := txn.changes[n - 1], ChangesUpTo(txn, n - 1);
      if c.TableItem? {
        LastOfAppend(before, [Change(txn.version, n - 1, c.key, c.payload)], k);
        assert LastOf([], k).None?;
      } else {
        assert before + [] == before;
      }
    }
  }

  /** Joining two sets of versions is the guarded upsert of their latest rows. */
  lemma LatestJoins(chain: nat -> Txn, a: set<nat>, b: set<nat>, k: ItemKey, x: Option<CurrentItem>, y: Option<CurrentItem>)
    requires LatestByLog(chain, a, k, x) && LatestByLog(chain, b, k, y)
    ensures LatestByLog(chain, a + b, k, Upserted(x, y))
  {
  }

  lemma LatestUnique(chain: nat -> Txn, seen: set<nat>, k: ItemKey, x: Option<CurrentItem>, y: Option<CurrentItem>)
    requires LatestByLog(chain, seen, k, x) && LatestByLog(chain, seen, k, y)
    ensures x == y
  {
  }

  /** A batch collapses to the latest change among its own versions. */
  lemma {:induction false} BatchByLog(chain: nat -> Txn, txns: seq<Txn>, k: ItemKey)
    requires Chained(chain) && FromChain(chain, txns)
    ensures LatestByLog(chain, Versions(txns), k, ItemOf(LastOf(Log(txns), k)))
  {
    if txns != [] {
      var n := |txns| - 1;
      var t := txns[n];
      BatchByLog(chain, txns[..n], k);
      LastOfAppend(Log(txns[..n]), TxnChanges(t), k);
      ChangesHaveVersion(t, |t.changes|, k);
      assert t == chain(t.version);
      assert LatestByLog(chain, {t.version}, k, ItemOf(LastOf(TxnChanges(t), k)));
      LatestJoins(chain, Versions(txns[..n]), {t.version}, k, ItemOf(LastOf(Log(txns[..n]), k)), ItemOf(LastOf(TxnChanges(t), k)));
      VersionsSplit(txns);
      assert forall v :: v in Versions(txns[..n]) ==> v < t.version;
    }
  }

  lemma VersionsSplit(txns: seq<Txn>)
    requires txns != []
    ensures Versions(txns) == Versions(txns[..|txns| - 1]) + {txns[|txns| - 1].version}
  {
    var n := |txns| - 1;
    forall v
      ensures v in Versions(txns) <==> v in Versions(txns[..n]) || v == txns[n].version
    {
      if v in Versions(txns) {
        var i :| 0 <= i < |txns| && txns[i].version == v;
        assert i < n ==> txns[..n][i].version == v;
      }
      if v in Versions(txns[..n]) {
        var i :| 0 <= i < n && txns[..n][i].version == v;
        assert txns[i].version == v;
      }
    }
  }

  // ---------------------------------------------------------------- whole runs

  datatype Tables = Tables(items: map<Position, Change>, current: Current)

  /** Names a step of a run, so that a proof looks into the steps it names and no others. */
  ghost predicate Step(i: int) { true }

  /** A run of batches from empty tables: `ts[i]` is the state before batch `i`. */
  ghost predicate IsRun(chain: nat -> Txn, batches: seq<seq<Txn>>, ts: seq<Tables>) {
    && |ts| == |batches| + 1
    && ts[0] == Tables(map[], map[])
    && forall i {:trigger Step(i)} :: Step(i) && 0 <= i < |batches| ==>
         && FromChain(chain, batches[i])
         && Stores(ts[i].items, ts[i].current, batches[i], ts[i + 1].items, ts[i + 1].current)
  }

  lemma RunStep(chain: nat -> Txn, batches: seq<seq<Txn>>, ts: seq<Tables>, i: nat, k: ItemKey)
    requires IsRun(chain, batches, ts) && i < |batches|
    ensures FromChain(chain, batches[i])
    ensures ts[i + 1].items == Inserted(ts[i].items, Log(batches[i]))
    ensures Get(ts[i + 1].current, k) == Upserted(Get(ts[i].current, k), ItemOf(LastOf(Log(batches[i]), k)))
  {
    assert Step(i);
  }

  /** The versions in the first `n` batches. */
  ghost function Seen(batches: seq<seq<Txn>>, n: nat): (r: set<nat>)
    requires n <= |batches|
  {
    if n == 0 then {} else Seen(batches, n - 1) + Versions(batches[n - 1])
  }

  lemma LatestStep(chain: nat -> Txn, seen: set<nat>, batch: seq<Txn>, k: ItemKey, before: Option<CurrentItem>)
    requires Chained(chain) && FromChain(chain, batch) && LatestByLog(chain, seen, k, before)
    ensures LatestByLog(chain, seen + Versions(batch), k, Upserted(before, ItemOf(LastOf(Log(batch), k))))
  {
    BatchByLog(chain, batch, k);
    LatestJoins(chain, seen, Versions(batch), k, before, ItemOf(LastOf(Log(batch), k)));
  }

  lemma LatestAfter(chain: nat -> Txn, batches: seq<seq<Txn>>, ts: seq<Tables>, i: nat, seen: set<nat>, k: ItemKey)
    requires Chained(chain) && IsRun(chain, batches, ts) && i < |batches|
    requires LatestByLog(chain, seen, k, Get(ts[i].current, k))
    ensures LatestByLog(chain, seen + Versions(batches[i]), k, Get(ts[i + 1].current, k))
  {
    RunStep(chain, batches, ts, i, k);
    LatestStep(chain, seen, batches[i], k, Get(ts[i].current, k));
  }

  /** At every point of every run, whatever batches overlap, repeat or come out of order, the current
      row of a key is what the chain last did to it within the versions delivered so far. */
  lemma {:induction false} CurrentByLog(chain: nat -> Txn, batches: seq<seq<Txn>>, ts: seq<Tables>, n: nat, k: ItemKey)
    requires Chained(chain) && IsRun(chain, batches, ts) && n <= |batches|
    ensures LatestByLog(chain, Seen(batches, n), k, Get(ts[n].current, k))
  {
    if n > 0 {
      CurrentByLog(chain, batches, ts, n - 1, k);
      LatestAfter(chain, batches, ts, n - 1, Seen(batches, n - 1), k);
    }
  }

  /** Two runs that delivered the same versions end with the same current table. */
  lemma OrderDoesNotMatter(chain: nat -> Txn, a: seq<seq<Txn>>, ta: seq<Tables>, b: seq<seq<Txn>>, tb: seq<Tables>)
    requires Chained(chain) && IsRun(chain, a, ta) && IsRun(chain, b, tb)
    requires Seen(a, |a|) == Seen(b, |b|)
    ensures ta[|a|].current == tb[|b|].current
  {
    var x, y := ta[|a|].current, tb[|b|].current;
    forall k
      ensures Get(x, k) == Get(y, k)
    {
      CurrentByLog(chain, a, ta, |a|, k);
      CurrentByLog(chain, b, tb, |b|, k);
      LatestUnique(chain, Seen(a, |a|), k, Get(x, k), Get(y, k));
    }
    forall k
      ensures k in x <==> k in y
      ensures k in x ==> x[k] == y[k]
    {
      assert Get(x, k) == Get(y, k);
    }
    assert x.Keys == y.Keys;
  }

  // ---------------------------------------------------------------- agreement with the log table

  /** The log table holds exactly the changes of the versions `seen`. */
  ghost predicate HoldsChanges(chain: nat -> Txn, seen: set<nat>, items: map<Position, Change>) {
    && (forall p :: p in items ==> p.0 in seen && items[p] in TxnChanges(chain(p.0)) && PositionOf(items[p]) == p)
    && (forall v, c :: v in seen && c in TxnChanges(chain(v)) ==> PositionOf(c) in items && items[PositionOf(c)] == c)
  }

  /** Within one transaction changes are identified by their position. */
  lemma {:induction false} PositionsRise(txn: Txn, n: nat)
    requires n <= |txn.changes|
    ensures forall c :: c in ChangesUpTo(txn, n) ==> c.version == txn.version && c.index < n
    ensures forall c, d :: c in ChangesUpTo(txn, n) && d in ChangesUpTo(txn, n) && c.index == d.index ==> c == d
  {
    if n > 0 {
      PositionsRise(txn, n - 1);
    }
  }

  lemma TxnPositions(chain: nat -> Txn, v: nat)
    requires Chained(chain)
    ensures forall c :: c in TxnChanges(chain(v)) ==> c.version == v
    ensures forall c, d :: c in TxnChanges(chain(v)) && d in TxnChanges(chain(v)) && c.index == d.index ==> c == d
  {
    PositionsRise(chain(v), |chain(v).changes|);
  }

  /** All changes of a log come from the chain. */
  ghost predicate LogFrom(chain: nat -> Txn, log: seq<Change>) {
    forall c :: c in log ==> c in TxnChanges(chain(c.version))
  }

  ghost predicate ItemsFrom(chain: nat -> Txn, items: map<Position, Change>) {
    forall p :: p in items ==> items[p] in TxnChanges(chain(p.0)) && PositionOf(items[p]) == p
  }

  /** `r` is `items` with the changes of the log added. */
  ghost predicate Adds(chain: nat -> Txn, items: map<Position, Change>, log: seq<Change>, r: map<Position, Change>) {
    && ItemsFrom(chain, r)
    && (forall c :: c in log ==> PositionOf(c) in r && r[PositionOf(c)] == c)
    && (forall p :: p in items ==> p in r && r[p] == items[p])
    && (forall p :: p in r ==> p in items || r[p] in log)
  }

  lemma AddOne(chain: nat -> Txn, items: map<Position, Change>, log: seq<Change>, mid: map<Position, Change>, c: Change)
    requires Chained(chain) && Adds(chain, items, log, mid) && c in TxnChanges(chain(c.version))
    ensures Adds(chain, items, log + [c], if PositionOf(c) in mid then mid else mid[PositionOf(c) := c])
  {
    TxnPositions(chain, c.version);
  }

  lemma {:induction false} InsertedHolds(chain: nat -> Txn, items: map<Position, Change>, log: seq<Change>)
    requires Chained(chain) && LogFrom(chain, log) && ItemsFrom(chain, items)
    ensures Adds(chain, items, log, Inserted(items, log))
  {
    if log != [] {
      var n := |log| - 1;
      InsertedHolds(chain, items, log[..n]);
      assert log == log[..n] + [log[n]] && log[n] in log;
      AddOne(chain, items, log[..n], Inserted(items, log[..n]), log[n]);
    }
  }

  lemma {:induction false} LogIsFromChain(chain: nat -> Txn, txns: seq<Txn>)
    requires Chained(chain) && FromChain(chain, txns)
    ensures forall c :: c in Log(txns) <==> c.version in Versions(txns) && c in TxnChanges(chain(c.version))
  {
    if txns != [] {
      var n := |txns| - 1;
      LogIsFromChain(chain, txns[..n]);
      TxnPositions(chain, txns[n].version);
      VersionsSplit(txns);
      assert txns[n] == chain(txns[n].version);
    }
  }

  lemma {:induction false} LogTableByLog(chain: nat -> Txn, batches: seq<seq<Txn>>, ts: seq<Tables>, n: nat)
    requires Chained(chain) && IsRun(chain, batches, ts) && n <= |batches|
    ensures HoldsChanges(chain, Seen(batches, n), ts[n].items)
  {
    if n > 0 {
      LogTableByLog(chain, batches, ts, n - 1);
      RunStep(chain, batches, ts, n - 1, ItemKey("", ""));
      LogStep(chain, Seen(batches, n - 1), ts[n - 1].items, batches[n - 1]);
    }
  }

  lemma LogStep(chain: nat -> Txn, seen: set<nat>, items: map<Position, Change>, txns: seq<Txn>)
    requires Chained(chain) && HoldsChanges(chain, seen, items) && FromChain(chain, txns)
    ensures HoldsChanges(chain, seen + Versions(txns), Inserted(items, Log(txns)))
  {
    LogIsFromChain(chain, txns);
    InsertedHolds(chain, items, Log(txns));
    LogGrows(chain, seen, Versions(txns), items, Log(txns), Inserted(items, Log(txns)));
  }

  lemma LogGrows(chain: nat -> Txn, seen: set<nat>, more: set<nat>, items: map<Position, Change>, log: seq<Change>, r: map<Position, Change>)
    requires Chained(chain) && HoldsChanges(chain, seen, items)
    requires forall c :: c in log <==> c.version in more && c in TxnChanges(chain(c.version))
    requires Adds(chain, items, log, r)
    ensures HoldsChanges(chain, seen + more, r)
  {
    forall v, c | v in seen + more && c in TxnChanges(chain(v))
      ensures PositionOf(c) in r && r[PositionOf(c)] == c
    {
      TxnPositions(chain, v);
      assert v in more ==> c in log;
    }
  }

  /** The last change of a key within a transaction is the one with the greatest position. */
  lemma {:induction false} LastOfIsLast(txn: Txn, n: nat, k: ItemKey)
    requires n <= |txn.changes|
    ensures var last := LastOf(ChangesUpTo(txn, n), k);
            && (last.Some? ==> last.value in ChangesUpTo(txn, n) && last.value.key == k)
            && (forall c :: c in ChangesUpTo(txn, n) && c.key == k ==> last.Some? && c.index <= last.value.index)
  {
    if n > 0 {
      LastOfIsLast(txn, n - 1, k);
      PositionsRise(txn, n - 1);
      var c, before := txn.changes[n - 1], ChangesUpTo(txn, n - 1);
      if c.TableItem? {
        LastOfAppend(before, [Change(txn.version, n - 1, c.key, c.payload)], k);
        assert LastOf([], k).None?;
      } else {
        assert before + [] == before;
      }
    }
  }

  ghost predicate NotAfter(a: Position, b: Position) {
    a.0 < b.0 || (a.0 == b.0 && a.1 <= b.1)
  }

  /** At every point of every run the current table is a view of the log table: a key has a row
      exactly when the log has a change for it, and the row is the change at the greatest position. */
  lemma CurrentIsViewOfLog(chain: nat -> Txn, batches: seq<seq<Txn>>, ts: seq<Tables>, n: nat, k: ItemKey)
    requires Chained(chain) && IsRun(chain, batches, ts) && n <= |batches|
    ensures var s := ts[n];
            && (k !in s.current ==> forall p :: p in s.items ==> s.items[p].key != k)
            && (k in s.current ==>
                  exists p :: p in s.items && s.items[p].key == k && Get(s.current, k) == ItemOf(Some(s.items[p]))
                    && forall q :: q in s.items && s.items[q].key == k ==> NotAfter(q, p))
  {
    CurrentByLog(chain, batches, ts, n, k);
    LogTableByLog(chain, batches, ts, n);
    ViewAt(chain, Seen(batches, n), ts[n], k);
  }

  lemma ViewAt(chain: nat -> Txn, seen: set<nat>, s: Tables, k: ItemKey)
    requires Chained(chain) && LatestByLog(chain, seen, k, Get(s.current, k)) && HoldsChanges(chain, seen, s.items)
    ensures k !in s.current ==> forall p :: p in s.items ==> s.items[p].key != k
    ensures k in s.current ==>
              exists p :: p in s.items && s.items[p].key == k && Get(s.current, k) == ItemOf(Some(s.items[p]))
                && forall q :: q in s.items && s.items[q].key == k ==> NotAfter(q, p)
  {
    forall q: Position | q in s.items && s.items[q].key == k
      ensures LastAt(chain, q.0, k).Some? && q.1 <= LastAt(chain, q.0, k).value.index
    {
      LastOfIsLast(chain(q.0), |chain(q.0).changes|, k);
    }
    if k in s.current {
      var v := s.current[k].version;
      LastOfIsLast(chain(v), |chain(v).changes|, k);
      TxnPositions(chain, v);
      var p := PositionOf(LastAt(chain, v, k).value);
      assert p in s.items && s.items[p] == LastAt(chain, v, k).value;
      forall q: Position | q in s.items && s.items[q].key == k
        ensures NotAfter(q, p)
      {
      }
    }
  }
}

/** What the log and the current table items hold, in terms of the transactions' write-set changes. */
module TableItemHistory {
  import opened Prelude
  import opened CurrentTables

  /** Change `i` of version `v` is a table item. */
  ghost predicate IsItem(chain: nat -> Txn, v: nat, i: nat) {
    chain(v).known && i < |chain(v).changes| && chain(v).changes[i].TableItem?
  }

  /** Change `i` of version `v` writes or deletes key `k`. */
  ghost predicate Writes(chain: nat -> Txn, v: nat, i: nat, k: ItemKey) {
    IsItem(chain, v, i) && chain(v).changes[i].key == k
  }

  lemma {:induction false} ChangesUpToAre(txn: Txn, n: nat, c: Change)
    requires n <= |txn.changes|
    ensures c in ChangesUpTo(txn, n) <==>
            c.version == txn.version && c.index < n && txn.changes[c.index] == TableItem(c.key, c.payload)
  {
    if n > 0 {
      ChangesUpToAre(txn, n - 1, c);
    }
  }

  /** The logged changes of a transaction are its table items, deletions included, each with its
      position. */
  lemma TxnChangesAre(txn: Txn, c: Change)
    ensures c in TxnChanges(txn) <==>
            && txn.known && c.version == txn.version
            && c.index < |txn.changes| && txn.changes[c.index] == TableItem(c.key, c.payload)
  {
    ChangesUpToAre(txn, |txn.changes|, c);
  }

  /** They are logged in the order of their positions. */
  lemma {:induction false} ChangesRise(txn: Txn, n: nat)
    requires n <= |txn.changes|
    ensures forall i, j :: 0 <= i < j < |ChangesUpTo(txn, n)| ==> ChangesUpTo(txn, n)[i].index < ChangesUpTo(txn, n)[j].index
  {
    if n > 0 {
      ChangesRise(txn, n - 1);
      PositionsRise(txn, n - 1);
      var before := ChangesUpTo(txn, n - 1);
      assert forall i :: 0 <= i < |before| ==> before[i] in before;
    }
  }

  /** A batch logs exactly the table items of its transactions. */
  lemma {:induction false} LogIsItems(txns: seq<Txn>, c: Change)
    ensures c in Log(txns) <==>
            exists t :: 0 <= t < |txns| && txns[t].known && c.version == txns[t].version
              && c.index < |txns[t].changes| && txns[t].changes[c.index] == TableItem(c.key, c.payload)
  {
    if txns != [] {
      var n := |txns| - 1;
      LogIsItems(txns[..n], c);
      TxnChangesAre(txns[n], c);
      assert forall t :: 0 <= t < n ==> txns[..n][t] == txns[t];
    }
  }

  /** The last change of a key within a version, in terms of the write set. */
  lemma LastAtIs(chain: nat -> Txn, v: nat, k: ItemKey)
    requires Chained(chain)
    ensures LastAt(chain, v, k).None? ==> forall i: nat :: !Writes(chain, v, i, k)
    ensures LastAt(chain, v, k).Some? ==>
              var c := LastAt(chain, v, k).value;
              && c.version == v && Writes(chain, v, c.index, k) && c.payload == chain(v).changes[c.index].payload
              && forall i: nat :: Writes(chain, v, i, k) ==> i <= c.index
  {
    var txn := chain(v);
    LastOfIsLast(txn, |txn.changes|, k);
    forall i: nat | Writes(chain, v, i, k)
      ensures Change(v, i, k, txn.changes[i].payload) in TxnChanges(txn)
    {
      TxnChangesAre(txn, Change(v, i, k, txn.changes[i].payload));
    }
    if LastAt(chain, v, k).Some? {
      TxnChangesAre(txn, LastAt(chain, v, k).value);
    }
  }

  /** `row` is what the last change of `k` within the versions `seen` wrote, in order of version and
      position; there is none exactly when nothing changed `k`. */
  ghost predicate IsLatest(chain: nat -> Txn, seen: set<nat>, k: ItemKey, row: Option<CurrentItem>) {
    match row
    case None => forall v: nat, i: nat :: v in seen ==> !Writes(chain, v, i, k)
    case Some(r) => exists i: nat :: WroteLast(chain, seen, k, r.version, i) && r.payload == chain(r.version).changes[i].payload
  }

  ghost predicate WroteLast(chain: nat -> Txn, seen: set<nat>, k: ItemKey, v: nat, i: nat) {
    && v in seen && Writes(chain, v, i, k)
    && forall u: nat, j: nat :: u in seen && Writes(chain, u, j, k) ==> NotAfter((u, j), (v, i))
  }

  lemma LatestByLogIsLatest(chain: nat -> Txn, seen: set<nat>, k: ItemKey, row: Option<CurrentItem>)
    requires Chained(chain) && LatestByLog(chain, seen, k, row)
    ensures IsLatest(chain, seen, k, row)
  {
    forall v
      ensures LastAt(chain, v, k).None? ==> forall i: nat :: !Writes(chain, v, i, k)
      ensures LastAt(chain, v, k).Some? ==> forall i: nat :: Writes(chain, v, i, k) ==> i <= LastAt(chain, v, k).value.index
    {
      LastAtIs(chain, v, k);
    }
    if row.Some? {
      LastAtIs(chain, row.value.version, k);
      assert WroteLast(chain, seen, k, row.value.version, LastAt(chain, row.value.version, k).value.index);
    }
  }

  /** A batch collapses to the latest change among its own versions. */
  lemma BatchIsLatest(chain: nat -> Txn, txns: seq<Txn>, k: ItemKey)
    requires Chained(chain) && FromChain(chain, txns)
    ensures IsLatest(chain, Versions(txns), k, ItemOf(LastOf(Log(txns), k)))
  {
    BatchByLog(chain, txns, k);
    LatestByLogIsLatest(chain, Versions(txns), k, ItemOf(LastOf(Log(txns), k)));
  }

  /** At every point of every run, whatever batches overlap, repeat or come out of order, the current
      row of a key is what the chain last did to it within the versions delivered so far. */
  lemma CurrentIsLatest(chain: nat -> Txn, batches: seq<seq<Txn>>, ts: seq<Tables>, n: nat, k: ItemKey)
    requires Chained(chain) && IsRun(chain, batches, ts) && n <= |batches|
    ensures IsLatest(chain, Seen(batches, n), k, Get(ts[n].current, k))
  {
    CurrentByLog(chain, batches, ts, n, k);
    LatestByLogIsLatest(chain, Seen(batches, n), k, Get(ts[n].current, k));
  }

  /** Change `i` of version `v` is the last one of `k` among the versions below `limit`. */
  ghost predicate LastTouch(chain: nat -> Txn, limit: nat, k: ItemKey, v: nat, i: nat) {
    && v < limit && Writes(chain, v, i, k)
    && forall u: nat, j: nat :: u < limit && Writes(chain, u, j, k) ==> NotAfter((u, j), (v, i))
  }

  /** Against the whole chain up to a limit: the current row of a key is what its last change wrote,
      be it a deletion, exactly when the version of that change was delivered. */
  lemma CurrentMatchesChainExactly(chain: nat -> Txn, batches: seq<seq<Txn>>, ts: seq<Tables>, n: nat, limit: nat, k: ItemKey, v: nat, i: nat)
    requires Chained(chain) && IsRun(chain, batches, ts) && n <= |batches|
    requires forall u :: u in Seen(batches, n) ==> u < limit
    requires LastTouch(chain, limit, k, v, i)
    ensures Get(ts[n].current, k) == Some(CurrentItem(chain(v).changes[i].payload, v)) <==> v in Seen(batches, n)
  {
    CurrentIsLatest(chain, batches, ts, n, k);
    var row := Get(ts[n].current, k);
    if row.Some? {
      var j: nat :| WroteLast(chain, Seen(batches, n), k, row.value.version, j) && row.value.payload == chain(row.value.version).changes[j].payload;
      assert NotAfter((row.value.version, j), (v, i));
    }
  }

  /** The log table holds exactly the table items of the versions `seen`, each at its position. */
  ghost predicate HoldsLog(chain: nat -> Txn, seen: set<nat>, items: map<Position, Change>) {
    && (forall p :: p in items <==> p.0 in seen && IsItem(chain, p.0, p.1))
    && (forall p :: p in items ==> IsItem(chain, p.0, p.1) && items[p] == ItemAt(chain, p.0, p.1))
  }

  /** The logged form of a table item. */
  ghost function ItemAt(chain: nat -> Txn, v: nat, i: nat): (r: Change)
    requires IsItem(chain, v, i)
  {
    Change(v, i, chain(v).changes[i].key, chain(v).changes[i].payload)
  }

  lemma LogTableHolds(chain: nat -> Txn, batches: seq<seq<Txn>>, ts: seq<Tables>, n: nat)
    requires Chained(chain) && IsRun(chain, batches, ts) && n <= |batches|
    ensures HoldsLog(chain, Seen(batches, n), ts[n].items)
  {
    LogTableByLog(chain, batches, ts, n);
    HeldIsLog(chain, Seen(batches, n), ts[n].items);
  }

  lemma HeldIsLog(chain: nat -> Txn, seen: set<nat>, items: map<Position, Change>)
    requires Chained(chain) && HoldsChanges(chain, seen, items)
    ensures HoldsLog(chain, seen, items)
  {
    forall p: Position
      ensures p in items <==> p.0 in seen && IsItem(chain, p.0, p.1)
      ensures p in items ==> IsItem(chain, p.0, p.1) && items[p] == ItemAt(chain, p.0, p.1)
    {
      if p in items {
        TxnChangesAre(chain(p.0), items[p]);
      }
      if p.0 in seen && IsItem(chain, p.0, p.1) {
        var c := ItemAt(chain, p.0, p.1);
        TxnChangesAre(chain(p.0), c);
        assert PositionOf(c) == p;
      }
    }
  }
}

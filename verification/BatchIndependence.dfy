/** The rollup does not depend on where the transaction stream is cut into batches. */
module BatchIndependence {
  import opened Prelude
  import opened EdgePairing
  import opened Extractor
  import opened Rollup
  import opened Storer

  /** What one batch does to the rollup: extract, sort, look up inflows in the batch, apply. */
  ghost function BatchOps(registry: seq<RegistryEntry>, txns: seq<Txn>): (r: seq<Op>) {
    Ops(BatchInflows(txns), Sort(BatchEdges(registry, txns)))
  }

  ghost function StoreBatch(registry: seq<RegistryEntry>, rows: Table, txns: seq<Txn>): (r: Table) {
    Fold(rows, BatchOps(registry, txns))
  }

  ghost function StoreBatches(registry: seq<RegistryEntry>, rows: Table, batches: seq<seq<Txn>>): (r: Table) {
    if batches == [] then rows
    else StoreBatch(registry, StoreBatches(registry, rows, batches[..|batches| - 1]), batches[|batches| - 1])
  }

  /** The operations transaction by transaction. */
  ghost function StreamOps(txns: seq<Txn>, each: Txn -> seq<Op>): (r: seq<Op>) {
    if txns == [] then [] else StreamOps(txns[..|txns| - 1], each) + each(txns[|txns| - 1])
  }

  ghost function OpsOfEach(registry: seq<RegistryEntry>): (r: Txn -> seq<Op>) {
    (txn: Txn) => BatchOps(registry, [txn])
  }

  /** The stream delivers transactions in version order. */
  ghost predicate Increasing(txns: seq<Txn>) {
    forall i, j :: 0 <= i < j < |txns| ==> txns[i].version < txns[j].version
  }

  // ---------------------------------------------------------------- inflow lookups are local

  lemma {:induction false} MatchInLeft(a: seq<Inflow>, b: seq<Inflow>, e: Edge)
    requires forall bi :: bi in b ==> bi.version != e.version
    ensures MatchInflow(a + b, e) == MatchInflow(a, e)
  {
    if a == [] {
      assert a + b == b;
      NoMatch(b, e);
    } else {
      assert (a + b)[1..] == a[1..] + b;
      MatchInLeft(a[1..], b, e);
    }
  }

  lemma {:induction false} MatchInRight(a: seq<Inflow>, b: seq<Inflow>, e: Edge)
    requires forall bi :: bi in a ==> bi.version != e.version
    ensures MatchInflow(a + b, e) == MatchInflow(b, e)
  {
    if a == [] {
      assert a + b == b;
    } else {
      assert (a + b)[1..] == a[1..] + b;
      assert a[0] in a;
      MatchInRight(a[1..], b, e);
    }
  }

  lemma {:induction false} NoMatch(b: seq<Inflow>, e: Edge)
    requires forall bi :: bi in b ==> bi.version != e.version
    ensures MatchInflow(b, e).None?
  {
    if b != [] {
      assert b[0] in b;
      NoMatch(b[1..], e);
    }
  }

  lemma {:induction false} SameOps(a: seq<Inflow>, b: seq<Inflow>, edges: seq<Edge>)
    requires forall e :: e in edges ==> MatchInflow(a, e) == MatchInflow(b, e)
    ensures Ops(a, edges) == Ops(b, edges)
  {
    if edges != [] {
      assert edges[|edges| - 1] in edges;
      SameOps(a, b, edges[..|edges| - 1]);
    }
  }

  lemma {:induction false} OpsAppend(inflows: seq<Inflow>, a: seq<Edge>, b: seq<Edge>)
    ensures Ops(inflows, a + b) == Ops(inflows, a) + Ops(inflows, b)
  {
    if b == [] {
      assert a + b == a;
    } else {
      assert (a + b)[..|a + b| - 1] == a + b[..|b| - 1];
      OpsAppend(inflows, a, b[..|b| - 1]);
    }
  }

  lemma {:induction false} FoldAppend(rows: Table, a: seq<Op>, b: seq<Op>)
    ensures Fold(rows, a + b) == Fold(Fold(rows, a), b)
  {
    if b == [] {
      assert a + b == a;
    } else {
      assert (a + b)[..|a + b| - 1] == a + b[..|b| - 1];
      FoldAppend(rows, a, b[..|b| - 1]);
    }
  }

  // ---------------------------------------------------------------- versions

  lemma TxnInflowVersions(txn: Txn)
    ensures forall bi :: bi in TxnInflows(txn) ==> bi.version == txn.version
  {
    forall bi | bi in TxnInflows(txn)
      ensures bi.version == txn.version
    {
      var i :| 0 <= i < |TxnInflows(txn)| && TxnInflows(txn)[i] == bi;
      InflowAssets(txn, |txn.events|, i);
    }
  }

  lemma TxnEdgeVersions(registry: seq<RegistryEntry>, txn: Txn)
    ensures forall e :: e in TxnEdges(registry, txn) ==> e.version == txn.version
  {
    TxnKeysDistinct(registry, txn);
  }

  /** Edges and inflows of transactions below a version stay below it. */
  lemma {:induction false} BatchVersions(registry: seq<RegistryEntry>, txns: seq<Txn>, limit: nat)
    requires forall t :: t in txns ==> t.version < limit
    ensures forall e :: e in BatchEdges(registry, txns) ==> e.version < limit
    ensures forall bi :: bi in BatchInflows(txns) ==> bi.version < limit
  {
    if txns != [] {
      var n := |txns| - 1;
      BatchVersions(registry, txns[..n], limit);
      TxnInflowVersions(txns[n]);
      TxnEdgeVersions(registry, txns[n]);
      assert txns[n] in txns;
    }
  }

  lemma SingleBatch(registry: seq<RegistryEntry>, txn: Txn)
    ensures BatchEdges(registry, [txn]) == TxnEdges(registry, txn) && BatchInflows([txn]) == TxnInflows(txn)
    ensures BatchOps(registry, [txn]) == Ops(TxnInflows(txn), Sort(TxnEdges(registry, txn)))
  {
    assert [txn][..0] == [];
    assert BatchEdges(registry, [txn]) == [] + TxnEdges(registry, txn);
    assert BatchInflows([txn]) == [] + TxnInflows(txn);
  }

  // ---------------------------------------------------------------- the theorem

  /** One more transaction adds its own operations and leaves the earlier ones alone. */
  lemma AddTxn(registry: seq<RegistryEntry>, txns: seq<Txn>, txn: Txn)
    requires forall t :: t in txns ==> t.version < txn.version
    ensures BatchOps(registry, txns + [txn]) == BatchOps(registry, txns) + BatchOps(registry, [txn])
  {
    var all := txns + [txn];
    assert all[..|all| - 1] == txns;
    var edges, more := BatchEdges(registry, txns), TxnEdges(registry, txn);
    var inflows, news := BatchInflows(txns), TxnInflows(txn);
    BatchVersions(registry, txns, txn.version);
    TxnEdgeVersions(registry, txn);
    TxnInflowVersions(txn);
    SortInBlocks(edges, more);
    OpsAppend(inflows + news, Sort(edges), Sort(more));
    SortKeepsMembers(edges);
    SortKeepsMembers(more);
    forall e | e in Sort(edges)
      ensures MatchInflow(inflows + news, e) == MatchInflow(inflows, e)
    {
      MatchInLeft(inflows, news, e);
    }
    SameOps(inflows + news, inflows, Sort(edges));
    forall e | e in Sort(more)
      ensures MatchInflow(inflows + news, e) == MatchInflow(news, e)
    {
      MatchInRight(inflows, news, e);
    }
    SameOps(inflows + news, news, Sort(more));
    SingleBatch(registry, txn);
  }

  lemma NoTxns(registry: seq<RegistryEntry>)
    ensures BatchOps(registry, []) == []
  {
  }

  lemma AddToStream(registry: seq<RegistryEntry>, txns: seq<Txn>, txn: Txn)
    requires Increasing(txns + [txn])
    ensures BatchOps(registry, txns + [txn]) == BatchOps(registry, txns) + BatchOps(registry, [txn])
  {
    forall t | t in txns
      ensures t.version < txn.version
    {
      var i :| 0 <= i < |txns| && txns[i] == t;
      assert (txns + [txn])[i] == t && (txns + [txn])[|txns|] == txn;
    }
    AddTxn(registry, txns, txn);
  }

  /** A batch function that grows transaction by transaction is the stream function. */
  lemma {:induction false} GrowsByTxn(txns: seq<Txn>, whole: seq<Txn> -> seq<Op>, each: Txn -> seq<Op>)
    requires Increasing(txns) && whole([]) == []
    requires forall ts: seq<Txn>, t :: Increasing(ts + [t]) ==> whole(ts + [t]) == whole(ts) + each(t)
    ensures whole(txns) == StreamOps(txns, each)
  {
    if txns != [] {
      var n := |txns| - 1;
      GrowsByTxn(txns[..n], whole, each);
      assert txns[..n] + [txns[n]] == txns;
    }
  }

  lemma BatchOpsAreStreamOps(registry: seq<RegistryEntry>, txns: seq<Txn>, each: Txn -> seq<Op>)
    requires Increasing(txns) && each == OpsOfEach(registry)
    ensures BatchOps(registry, txns) == StreamOps(txns, each)
  {
    var whole := (ts: seq<Txn>) => BatchOps(registry, ts);
    NoTxns(registry);
    forall ts: seq<Txn>, t | Increasing(ts + [t])
      ensures whole(ts + [t]) == whole(ts) + each(t)
    {
      AddToStream(registry, ts, t);
    }
    GrowsByTxn(txns, whole, each);
  }

  lemma {:induction false} StreamOpsAppend(a: seq<Txn>, b: seq<Txn>, each: Txn -> seq<Op>)
    ensures StreamOps(a + b, each) == StreamOps(a, each) + StreamOps(b, each)
  {
    if b == [] {
      assert a + b == a;
    } else {
      assert (a + b)[..|a + b| - 1] == a + b[..|b| - 1];
      StreamOpsAppend(a, b[..|b| - 1], each);
    }
  }

  /** Each batch rises in version; the batches may overlap and repeat one another. */
  ghost predicate EachIncreasing(batches: seq<seq<Txn>>) {
    forall b :: b in batches ==> Increasing(b)
  }

  /** Batch by batch, the rollup is what the batches' transactions do one at a time, each as often as
      it is delivered. */
  lemma {:induction false} BatchesFollowStream(registry: seq<RegistryEntry>, rows: Table, batches: seq<seq<Txn>>, each: Txn -> seq<Op>)
    requires EachIncreasing(batches) && each == OpsOfEach(registry)
    ensures StoreBatches(registry, rows, batches) == Fold(rows, StreamOps(Flatten(batches), each))
  {
    if batches != [] {
      var n := |batches| - 1;
      var before, last := Flatten(batches[..n]), batches[n];
      assert Flatten(batches) == before + last;
      assert last in batches;
      BatchesFollowStream(registry, rows, batches[..n], each);
      BatchOpsAreStreamOps(registry, last, each);
      StreamOpsAppend(before, last, each);
      FoldAppend(rows, StreamOps(before, each), StreamOps(last, each));
    }
  }

  /** Any two ways of cutting the same deliveries into batches give the same table, repeated
      transactions included; deliveries that rise in version give the table of a single batch. */
  lemma CuttingDoesNotMatter(registry: seq<RegistryEntry>, rows: Table, a: seq<seq<Txn>>, b: seq<seq<Txn>>)
    requires EachIncreasing(a) && EachIncreasing(b) && Flatten(a) == Flatten(b)
    ensures StoreBatches(registry, rows, a) == StoreBatches(registry, rows, b)
    ensures Increasing(Flatten(a)) ==> StoreBatches(registry, rows, a) == StoreBatch(registry, rows, Flatten(a))
  {
    var each := OpsOfEach(registry);
    BatchesFollowStream(registry, rows, a, each);
    BatchesFollowStream(registry, rows, b, each);
    if Increasing(Flatten(a)) {
      BatchOpsAreStreamOps(registry, Flatten(a), each);
    }
  }
}

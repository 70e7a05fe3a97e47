/** The rollup as a run over the delivered transactions' edges, and the credit that transfers leave. */
module EdgeCredits {
  import opened Prelude
  import opened Sums
  import opened Extractor
  import opened Rollup
  import opened RollupHistory
  import opened TransferSplit
  import opened TransferTotals
  import opened Storer
  import opened BatchIndependence
  import opened Conservation
  import opened Replays

  /** An edge with the inflows of its transaction. */
  datatype Item = Item(edge: Edge, inflows: seq<Inflow>)

  function Items(edges: seq<Edge>, inflows: seq<Inflow>): (r: seq<Item>)
    ensures |r| == |edges| && forall i :: 0 <= i < |r| ==> r[i] == Item(edges[i], inflows)
  {
    seq(|edges|, i requires 0 <= i < |edges| => Item(edges[i], inflows))
  }

  /** The edges of the delivered transactions, each transaction's in the order of their event indices. */
  function StreamItems(registry: seq<RegistryEntry>, txns: seq<Txn>): (r: seq<Item>) {
    if txns == [] then []
    else
      var last := txns[|txns| - 1];
      StreamItems(registry, txns[..|txns| - 1]) + Items(Sort(TxnEdges(registry, last)), TxnInflows(last))
  }

  ghost function ItemFold(rows: Table, items: seq<Item>): (r: Table) {
    if items == [] then rows
    else EdgeApplied(ItemFold(rows, items[..|items| - 1]), items[|items| - 1].inflows, items[|items| - 1].edge)
  }

  /** `ts[i]` is the table before edge `i`, and each edge has its effect. */
  ghost predicate IsEdgeRun(items: seq<Item>, ts: seq<Table>) {
    && |ts| == |items| + 1 && ts[0] == map[]
    && forall i {:trigger Step(i)} :: Step(i) && 0 <= i < |items| ==> EdgeEffect(ts[i], items[i].inflows, items[i].edge, ts[i + 1])
  }

  // ---------------------------------------------------------------- the run of edges

  lemma {:induction false} ItemFoldAppend(rows: Table, a: seq<Item>, b: seq<Item>)
    ensures ItemFold(rows, a + b) == ItemFold(ItemFold(rows, a), b)
  {
    if b == [] {
      assert a + b == a;
    } else {
      assert (a + b)[..|a + b| - 1] == a + b[..|b| - 1];
      ItemFoldAppend(rows, a, b[..|b| - 1]);
    }
  }

  lemma {:induction false} ItemsFoldOps(rows: Table, edges: seq<Edge>, inflows: seq<Inflow>)
    ensures ItemFold(rows, Items(edges, inflows)) == Fold(rows, Ops(inflows, edges))
  {
    if edges != [] {
      var n := |edges| - 1;
      ItemsFoldOps(rows, edges[..n], inflows);
      assert Items(edges, inflows)[..n] == Items(edges[..n], inflows);
      FoldOps(rows, inflows, edges[..n], edges[n]);
      assert edges[..n] + [edges[n]] == edges;
    }
  }

  lemma {:induction false} StreamItemsFold(registry: seq<RegistryEntry>, rows: Table, txns: seq<Txn>, each: Txn -> seq<Op>)
    requires each == OpsOfEach(registry)
    ensures ItemFold(rows, StreamItems(registry, txns)) == Fold(rows, StreamOps(txns, each))
  {
    if txns != [] {
      var front, last := txns[..|txns| - 1], txns[|txns| - 1];
      StreamItemsFold(registry, rows, front, each);
      ItemFoldAppend(rows, StreamItems(registry, front), Items(Sort(TxnEdges(registry, last)), TxnInflows(last)));
      ItemsFoldOps(ItemFold(rows, StreamItems(registry, front)), Sort(TxnEdges(registry, last)), TxnInflows(last));
      SingleBatch(registry, last);
      FoldAppend(rows, StreamOps(front, each), each(last));
    }
  }

  ghost function ItemTables(items: seq<Item>): (r: seq<Table>)
    ensures |r| == |items| + 1
    ensures forall i :: 0 <= i <= |items| ==> r[i] == ItemFold(map[], items[..i])
  {
    seq(|items| + 1, i requires 0 <= i <= |items| => ItemFold(map[], items[..i]))
  }

  lemma TablesAdvance(items: seq<Item>, i: nat)
    requires i < |items|
    ensures ItemTables(items)[i + 1] == EdgeApplied(ItemTables(items)[i], items[i].inflows, items[i].edge)
  {
    assert items[..i + 1][..i] == items[..i];
  }

  lemma TablesAreRun(items: seq<Item>)
    ensures IsEdgeRun(items, ItemTables(items)) && ItemTables(items)[|items|] == ItemFold(map[], items)
  {
    var ts := ItemTables(items);
    assert items[..|items|] == items;
    forall i | Step(i) && 0 <= i < |items|
      ensures EdgeEffect(ts[i], items[i].inflows, items[i].edge, ts[i + 1])
    {
      TablesAdvance(items, i);
      EdgeHasEffect(ts[i], items[i].inflows, items[i].edge);
    }
  }

  /** Storing batches runs through the edges of their transactions, one effect after the other. */
  lemma BatchesAreEdgeRun(registry: seq<RegistryEntry>, batches: seq<seq<Txn>>) returns (items: seq<Item>, ts: seq<Table>)
    requires EachIncreasing(batches)
    ensures items == StreamItems(registry, Flatten(batches)) && ts == ItemTables(items)
    ensures IsEdgeRun(items, ts) && ts[|items|] == StoreBatches(registry, map[], batches)
  {
    items := StreamItems(registry, Flatten(batches));
    ts := ItemTables(items);
    TablesAreRun(items);
    StreamItemsFold(registry, map[], Flatten(batches), OpsOfEach(registry));
    BatchesFollowStream(registry, map[], batches, OpsOfEach(registry));
  }

  // ---------------------------------------------------------------- credit

  lemma DirectStep(rows: Table, op: Op)
    requires DirectFunds(rows) && op.amount >= 0.0
    ensures DirectFunds(Apply(rows, op))
  {
    var now := Apply(rows, op);
    forall k | k in now
      ensures now[k].evmFund >= 0.0 && (now[k].evmFund > 0.0 ==> now[k].hops == 0)
    {
      ApplyAt(rows, op, k);
      assert Get(now, k) == Some(now[k]);
    }
  }

  /** A transfer edge into this address whose sender has a positive total. */
  ghost predicate PaysInto(rows: Table, e: Edge, addr: string, asset: string) {
    !e.isBridge && e.to == addr && e.asset == Some(asset) && Total(rows, e.from, asset) > 0.0
  }

  lemma EdgeIsPaid(rows: Table, inflows: seq<Inflow>, e: Edge, addr: string, asset: string)
    requires DirectFunds(rows) && e.amount >= 0.0
    ensures var now := EdgeApplied(rows, inflows, e);
            && DirectFunds(now)
            && Near(TotalCredit(now, addr, asset) - TotalCredit(rows, addr, asset), if PaysInto(rows, e, addr, asset) then e.amount else 0.0,
                    Slack(if PaysInto(rows, e, addr, asset) then |FundedSources(rows, e.from, asset)| else 0))
  {
    var op := OpOf(inflows, e);
    if op.Some? {
      DirectStep(rows, op.value);
      if PaysInto(rows, e, addr, asset) {
        PaidAdds(rows, op.value, addr, asset);
        TransferCreditsAmount(rows, op.value);
      } else {
        UnpaidStays(rows, op.value, addr, asset);
      }
    }
  }

  /** The amounts of the paying transfer edges among the first `n`, and how many funded sources they were
      split over. */
  ghost function PaidSum(items: seq<Item>, ts: seq<Table>, n: nat, addr: string, asset: string): (r: real)
    requires n <= |items| && |ts| == |items| + 1
  {
    if n == 0 then 0.0
    else PaidSum(items, ts, n - 1, addr, asset) + if PaysInto(ts[n - 1], items[n - 1].edge, addr, asset) then items[n - 1].edge.amount else 0.0
  }

  ghost function PaidSplits(items: seq<Item>, ts: seq<Table>, n: nat, addr: string, asset: string): (r: nat)
    requires n <= |items| && |ts| == |items| + 1
  {
    if n == 0 then 0
    else
      PaidSplits(items, ts, n - 1, addr, asset)
      + if PaysInto(ts[n - 1], items[n - 1].edge, addr, asset) then |FundedSources(ts[n - 1], items[n - 1].edge.from, asset)| else 0
  }

  lemma {:induction false} CreditIsPaid(items: seq<Item>, ts: seq<Table>, n: nat, addr: string, asset: string)
    requires ts == ItemTables(items) && n <= |items| && forall i :: 0 <= i < |items| ==> items[i].edge.amount >= 0.0
    ensures DirectFunds(ts[n])
    ensures Near(TotalCredit(ts[n], addr, asset), PaidSum(items, ts, n, addr, asset), Slack(PaidSplits(items, ts, n, addr, asset)))
    decreases n
  {
    if n == 0 {
      assert items[..0] == [] && Sources(map[], addr, asset) == {};
    } else {
      CreditIsPaid(items, ts, n - 1, addr, asset);
      TablesAdvance(items, n - 1);
      EdgeIsPaid(ts[n - 1], items[n - 1].inflows, items[n - 1].edge, addr, asset);
    }
  }

  lemma {:induction false} StreamAmounts(registry: seq<RegistryEntry>, txns: seq<Txn>)
    requires forall t :: t in txns ==> UnsignedAmounts(t)
    ensures forall i :: 0 <= i < |StreamItems(registry, txns)| ==> StreamItems(registry, txns)[i].edge.amount >= 0.0
  {
    if txns != [] {
      var front, last := txns[..|txns| - 1], txns[|txns| - 1];
      assert last in txns && forall t :: t in front ==> t in txns;
      StreamAmounts(registry, front);
      EdgeAmounts(registry, last);
      var sorted := Sort(TxnEdges(registry, last));
      SortKeepsMembers(TxnEdges(registry, last));
      assert forall i :: 0 <= i < |sorted| ==> sorted[i] in sorted;
    }
  }

  /** After any run, with any overlaps and repeats, the total transferred credit of an address is the sum
      of the amounts of the delivered transfer edges into it whose sender had a positive total when they
      came, up to half of 10^-9 for each funded source that each of them was split over. */
  lemma TotalCreditIsPaid(registry: seq<RegistryEntry>, batches: seq<seq<Txn>>, addr: string, asset: string) returns (items: seq<Item>, ts: seq<Table>)
    requires EachIncreasing(batches) && forall t :: t in Flatten(batches) ==> UnsignedAmounts(t)
    ensures items == StreamItems(registry, Flatten(batches))
    ensures IsEdgeRun(items, ts) && ts[|items|] == StoreBatches(registry, map[], batches)
    ensures Near(TotalCredit(StoreBatches(registry, map[], batches), addr, asset), PaidSum(items, ts, |items|, addr, asset),
                 Slack(PaidSplits(items, ts, |items|, addr, asset)))
  {
    items, ts := BatchesAreEdgeRun(registry, batches);
    StreamAmounts(registry, Flatten(batches));
    CreditIsPaid(items, ts, |items|, addr, asset);
  }
}

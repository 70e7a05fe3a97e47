/** Conservation of bridge funds, from the events of a stream of transactions to the rollup. */
module Conservation {
  import opened Prelude
  import opened EdgePairing
  import opened Extractor
  import opened Rollup
  import opened RollupHistory
  import opened Storer
  import opened BatchIndependence

  ghost function EdgeSum(edges: seq<Edge>, part: Edge -> real): (r: real) {
    if edges == [] then 0.0 else EdgeSum(edges[..|edges| - 1], part) + part(edges[|edges| - 1])
  }

  ghost function TxnSum(txns: seq<Txn>, part: Txn -> real): (r: real) {
    if txns == [] then 0.0 else TxnSum(txns[..|txns| - 1], part) + part(txns[|txns| - 1])
  }

  lemma {:induction false} EdgeSumAppend(a: seq<Edge>, b: seq<Edge>, part: Edge -> real)
    ensures EdgeSum(a + b, part) == EdgeSum(a, part) + EdgeSum(b, part)
  {
    if b == [] {
      assert a + b == a;
    } else {
      assert (a + b)[..|a + b| - 1] == a + b[..|b| - 1];
      EdgeSumAppend(a, b[..|b| - 1], part);
    }
  }

  lemma EdgeSumOne(s: seq<Edge>, e: Edge, part: Edge -> real)
    ensures EdgeSum(s + [e], part) == EdgeSum(s, part) + part(e)
  {
    assert (s + [e])[..|s|] == s;
  }

  lemma {:induction false} InsertSum(s: seq<Edge>, x: Edge, part: Edge -> real)
    ensures EdgeSum(Insert(s, x), part) == EdgeSum(s, part) + part(x)
  {
    if s != [] && IsAbove(s[|s| - 1], x) {
      var front, last := s[..|s| - 1], s[|s| - 1];
      InsertSum(front, x, part);
      EdgeSumOne(Insert(front, x), last, part);
    } else {
      EdgeSumOne(s, x, part);
    }
  }

  /** Sorting does not change a sum. */
  lemma {:induction false} SortSum(s: seq<Edge>, part: Edge -> real)
    ensures EdgeSum(Sort(s), part) == EdgeSum(s, part)
  {
    if s != [] {
      SortSum(s[..|s| - 1], part);
      InsertSum(Sort(s[..|s| - 1]), s[|s| - 1], part);
    }
  }

  lemma {:induction false} OpSumPrefix(a: seq<Op>, b: seq<Op>, n: nat, part: Op -> real)
    requires n <= |a|
    ensures OpSum(a + b, n, part) == OpSum(a, n, part)
  {
    if n > 0 {
      OpSumPrefix(a, b, n - 1, part);
    }
  }

  lemma {:induction false} OpSumAppend(a: seq<Op>, b: seq<Op>, n: nat, part: Op -> real)
    requires n <= |b|
    ensures OpSum(a + b, |a| + n, part) == OpSum(a, |a|, part) + OpSum(b, n, part)
  {
    if n == 0 {
      OpSumPrefix(a, b, |a|, part);
    } else {
      OpSumAppend(a, b, n - 1, part);
    }
  }

  /** What an edge contributes through its operation. */
  ghost function Through(inflows: seq<Inflow>, part: Op -> real): (r: Edge -> real) {
    (e: Edge) => if OpOf(inflows, e).Some? then part(OpOf(inflows, e).value) else 0.0
  }

  lemma {:induction false} OpsSum(inflows: seq<Inflow>, edges: seq<Edge>, part: Op -> real)
    ensures OpSum(Ops(inflows, edges), |Ops(inflows, edges)|, part) == EdgeSum(edges, Through(inflows, part))
  {
    if edges != [] {
      var n := |edges| - 1;
      var before, op := Ops(inflows, edges[..n]), OpOf(inflows, edges[n]);
      OpsSum(inflows, edges[..n], part);
      if op.Some? {
        OpSumAppend(before, [op.value], 1, part);
        assert OpSum([op.value], 1, part) == OpSum([op.value], 0, part) + part(op.value);
      } else {
        assert before + [] == before;
      }
    }
  }

  /** A transaction's contribution is the sum over its edges. */
  lemma TxnOpsSum(registry: seq<RegistryEntry>, txn: Txn, part: Op -> real)
    ensures OpSum(BatchOps(registry, [txn]), |BatchOps(registry, [txn])|, part)
         == EdgeSum(TxnEdges(registry, txn), Through(TxnInflows(txn), part))
  {
    SingleBatch(registry, txn);
    OpsSum(TxnInflows(txn), Sort(TxnEdges(registry, txn)), part);
    SortSum(TxnEdges(registry, txn), Through(TxnInflows(txn), part));
  }

  lemma {:induction false} StreamSum(txns: seq<Txn>, each: Txn -> seq<Op>, part: Op -> real, whole: Txn -> real)
    requires forall t :: t in txns ==> whole(t) == OpSum(each(t), |each(t)|, part)
    ensures OpSum(StreamOps(txns, each), |StreamOps(txns, each)|, part) == TxnSum(txns, whole)
  {
    if txns != [] {
      var n := |txns| - 1;
      StreamSum(txns[..n], each, part, whole);
      OpSumAppend(StreamOps(txns[..n], each), each(txns[n]), |each(txns[n])|, part);
    }
  }

  lemma {:induction false} TxnSumCongruent(txns: seq<Txn>, f: Txn -> real, g: Txn -> real)
    requires forall t :: t in txns ==> f(t) == g(t)
    ensures TxnSum(txns, f) == TxnSum(txns, g)
  {
    if txns != [] {
      assert txns[|txns| - 1] in txns;
      TxnSumCongruent(txns[..|txns| - 1], f, g);
    }
  }

  lemma {:induction false} EdgeSumCongruent(edges: seq<Edge>, f: Edge -> real, g: Edge -> real)
    requires forall e :: e in edges ==> f(e) == g(e)
    ensures EdgeSum(edges, f) == EdgeSum(edges, g)
  {
    if edges != [] {
      assert edges[|edges| - 1] in edges;
      EdgeSumCongruent(edges[..|edges| - 1], f, g);
    }
  }

  // ---------------------------------------------------------------- the total at an address

  /** The amount of a bridge edge into `addr` with this asset whose inflow has a known source. */
  ghost function BridgePart(inflows: seq<Inflow>, addr: string, asset: string): (r: Edge -> real) {
    (e: Edge) => if e.isBridge && e.to == addr && e.asset == Some(asset) && SourceOf(inflows, e).Some? then e.amount else 0.0
  }

  ghost function BridgeTotal(registry: seq<RegistryEntry>, addr: string, asset: string): (r: Txn -> real) {
    (t: Txn) => EdgeSum(TxnEdges(registry, t), BridgePart(TxnInflows(t), addr, asset))
  }

  lemma AfterStream(registry: seq<RegistryEntry>, batches: seq<seq<Txn>>, each: Txn -> seq<Op>) returns (ts: seq<Table>, ops: seq<Op>)
    requires EachIncreasing(batches) && each == OpsOfEach(registry)
    ensures ops == StreamOps(Flatten(batches), each)
    ensures IsTrace(ops, ts) && ts[|ops|] == StoreBatches(registry, map[], batches)
  {
    BatchesFollowStream(registry, map[], batches, each);
    ops := StreamOps(Flatten(batches), each);
    ts := FoldIsTrace(ops);
  }

  lemma SeedIntoIsBridgePart(inflows: seq<Inflow>, edges: seq<Edge>, addr: string, asset: string)
    ensures EdgeSum(edges, Through(inflows, SeedInto(addr, asset))) == EdgeSum(edges, BridgePart(inflows, addr, asset))
  {
    var f, g := Through(inflows, SeedInto(addr, asset)), BridgePart(inflows, addr, asset);
    forall e | e in edges
      ensures f(e) == g(e)
    {
      var op := OpOf(inflows, e);
      assert f(e) == if op.Some? then SeedInto(addr, asset)(op.value) else 0.0;
    }
    EdgeSumCongruent(edges, f, g);
  }

  lemma TxnTotal(registry: seq<RegistryEntry>, txn: Txn, addr: string, asset: string)
    ensures BridgeTotal(registry, addr, asset)(txn) == OpSum(BatchOps(registry, [txn]), |BatchOps(registry, [txn])|, SeedInto(addr, asset))
  {
    TxnOpsSum(registry, txn, SeedInto(addr, asset));
    SeedIntoIsBridgePart(TxnInflows(txn), TxnEdges(registry, txn), addr, asset);
  }

  /** After any run, in any batches, the total bridge fund of an address and asset is the sum of the
      amounts of the bridge edges into it that have a known asset and source. */
  lemma TotalIsBridged(registry: seq<RegistryEntry>, batches: seq<seq<Txn>>, addr: string, asset: string)
    requires EachIncreasing(batches)
    ensures Total(StoreBatches(registry, map[], batches), addr, asset) == TxnSum(Flatten(batches), BridgeTotal(registry, addr, asset))
  {
    var txns, each, part := Flatten(batches), OpsOfEach(registry), SeedInto(addr, asset);
    var ts, ops := AfterStream(registry, batches, each);
    TotalIsSeeded(ops, ts, |ops|, addr, asset);
    var whole := BridgeTotal(registry, addr, asset);
    forall t | t in txns
      ensures whole(t) == OpSum(each(t), |each(t)|, part)
    {
      TxnTotal(registry, t, addr, asset);
    }
    StreamSum(txns, each, part, whole);
  }

  // ---------------------------------------------------------------- each source on its own

  /** A bridge edge whose amount goes to row `k`. */
  ghost predicate CreditedTo(inflows: seq<Inflow>, e: Edge, k: Key) {
    e.isBridge && e.to == k.addr && e.asset == Some(k.asset) && SourceOf(inflows, e) == Some(k.evm)
  }

  ghost function CreditPart(inflows: seq<Inflow>, k: Key): (r: Edge -> real) {
    (e: Edge) => if CreditedTo(inflows, e, k) then e.amount else 0.0
  }

  /** The amounts of the inflows that belong to row `k`: its recipient, asset and own source. */
  ghost function InflowSum(inflows: seq<Inflow>, k: Key): (r: real) {
    if inflows == [] then 0.0
    else
      var bi := inflows[|inflows| - 1];
      InflowSum(inflows[..|inflows| - 1], k)
      + if bi.recipient == k.addr && bi.asset == Some(k.asset) && bi.evmSource == Some(k.evm) then bi.amount else 0.0
  }

  /** Inflows of one transaction that look alike come from the same source. */
  ghost predicate OwnSources(inflows: seq<Inflow>) {
    forall i, j :: 0 <= i < j < |inflows| && inflows[i].recipient == inflows[j].recipient && inflows[i].amount == inflows[j].amount
      ==> inflows[i].evmSource == inflows[j].evmSource
  }

  predicate Alike(a: Inflow, b: Inflow) {
    a.recipient == b.recipient && a.amount == b.amount
  }

  /** Inflows of one transaction that look alike and have a resolved asset come from one source. */
  ghost predicate SharedSources(inflows: seq<Inflow>) {
    forall a, b :: a in inflows && b in inflows && Alike(a, b) && a.asset.Some? ==> a.evmSource == b.evmSource
  }

  lemma {:induction false} MatchIsFirst(inflows: seq<Inflow>, e: Edge, i: nat) returns (j: nat)
    requires i < |inflows| && inflows[i].version == e.version && inflows[i].recipient == e.to && inflows[i].amount == e.amount
    ensures j <= i && MatchInflow(inflows, e) == Some(inflows[j])
    ensures inflows[j].version == e.version && inflows[j].recipient == e.to && inflows[j].amount == e.amount
    ensures forall h :: 0 <= h < j ==> inflows[h].version != e.version || inflows[h].recipient != e.to || inflows[h].amount != e.amount
  {
    if inflows[0].version == e.version && inflows[0].recipient == e.to && inflows[0].amount == e.amount {
      j := 0;
    } else {
      j := MatchIsFirst(inflows[1..], e, i - 1);
      j := j + 1;
      assert forall h :: 0 < h < j ==> inflows[h] == inflows[1..][h - 1];
    }
  }

  /** Exactly then every head edge is credited to the source of its own inflow. */
  lemma HeadsOwnSource(registry: seq<RegistryEntry>, txn: Txn)
    ensures OwnSources(TxnInflows(txn)) <==>
            forall i :: 0 <= i < |TxnInflows(txn)| ==>
              SourceOf(TxnInflows(txn), HeadEdge(registry, TxnInflows(txn)[i])) == TxnInflows(txn)[i].evmSource
  {
    var bis := TxnInflows(txn);
    TxnInflowVersions(txn);
    if OwnSources(bis) {
      forall i | 0 <= i < |bis|
        ensures SourceOf(bis, HeadEdge(registry, bis[i])) == bis[i].evmSource
      {
        var j := MatchIsFirst(bis, HeadEdge(registry, bis[i]), i);
      }
    } else {
      var i, j :| 0 <= i < j < |bis| && bis[i].recipient == bis[j].recipient && bis[i].amount == bis[j].amount
        && bis[i].evmSource != bis[j].evmSource;
      assert bis[i] in bis && bis[j] in bis;
      var a := MatchIsFirst(bis, HeadEdge(registry, bis[i]), i);
      var b := MatchIsFirst(bis, HeadEdge(registry, bis[j]), j);
      assert a == b;
    }
  }

  /** Then the head edge of an inflow with a resolved asset is credited to the inflow's own source. */
  lemma HeadSource(registry: seq<RegistryEntry>, txn: Txn, i: nat)
    requires SharedSources(TxnInflows(txn)) && i < |TxnInflows(txn)| && TxnInflows(txn)[i].asset.Some?
    ensures SourceOf(TxnInflows(txn), HeadEdge(registry, TxnInflows(txn)[i])) == TxnInflows(txn)[i].evmSource
  {
    var bis := TxnInflows(txn);
    TxnInflowVersions(txn);
    var j := MatchIsFirst(bis, HeadEdge(registry, bis[i]), i);
    assert bis[i] in bis && bis[j] in bis;
  }

  lemma {:induction false} HeadSum(registry: seq<RegistryEntry>, full: seq<Inflow>, inflows: seq<Inflow>, k: Key)
    requires forall i :: 0 <= i < |inflows| && inflows[i].asset.Some? ==> SourceOf(full, HeadEdge(registry, inflows[i])) == inflows[i].evmSource
    ensures EdgeSum(HeadEdges(registry, inflows), CreditPart(full, k)) == InflowSum(inflows, k)
  {
    if inflows != [] {
      var n := |inflows| - 1;
      HeadSum(registry, full, inflows[..n], k);
      EdgeSumOne(HeadEdges(registry, inflows[..n]), HeadEdge(registry, inflows[n]), CreditPart(full, k));
    }
  }

  ghost function OwnInflows(k: Key): (r: Txn -> real) {
    (t: Txn) => InflowSum(TxnInflows(t), k)
  }

  /** What the paired edges of a transaction add on top: they are flagged when the deposit looks
      like one of the transaction's inflows, and then count it a second time. */
  ghost function CountedAgain(k: Key): (r: Txn -> real) {
    (t: Txn) => EdgeSum(TxnPaired(t), CreditPart(TxnInflows(t), k))
  }

  lemma {:induction false} TxnSumAdds(txns: seq<Txn>, f: Txn -> real, g: Txn -> real, h: Txn -> real)
    requires forall t :: t in txns ==> h(t) == f(t) + g(t)
    ensures TxnSum(txns, h) == TxnSum(txns, f) + TxnSum(txns, g)
  {
    if txns != [] {
      assert txns[|txns| - 1] in txns;
      TxnSumAdds(txns[..|txns| - 1], f, g, h);
    }
  }

  lemma SeedAtIsCreditPart(inflows: seq<Inflow>, edges: seq<Edge>, k: Key)
    ensures EdgeSum(edges, Through(inflows, SeedAt(k))) == EdgeSum(edges, CreditPart(inflows, k))
  {
    var f, g := Through(inflows, SeedAt(k)), CreditPart(inflows, k);
    forall e | e in edges
      ensures f(e) == g(e)
    {
      var op := OpOf(inflows, e);
      assert f(e) == if op.Some? then SeedAt(k)(op.value) else 0.0;
      assert k == Key(k.addr, k.asset, k.evm);
    }
    EdgeSumCongruent(edges, f, g);
  }

  /** What the head edges of a transaction credit to row `k`. */
  ghost function HeadCredit(registry: seq<RegistryEntry>, k: Key): (r: Txn -> real) {
    (t: Txn) => EdgeSum(HeadEdges(registry, TxnInflows(t)), CreditPart(TxnInflows(t), k))
  }

  lemma HeadCreditIsOwn(registry: seq<RegistryEntry>, txn: Txn, k: Key)
    requires SharedSources(TxnInflows(txn))
    ensures HeadCredit(registry, k)(txn) == OwnInflows(k)(txn)
  {
    forall i | 0 <= i < |TxnInflows(txn)| && TxnInflows(txn)[i].asset.Some?
      ensures SourceOf(TxnInflows(txn), HeadEdge(registry, TxnInflows(txn)[i])) == TxnInflows(txn)[i].evmSource
    {
      HeadSource(registry, txn, i);
    }
    HeadSum(registry, TxnInflows(txn), TxnInflows(txn), k);
  }

  lemma TxnCredit(registry: seq<RegistryEntry>, txn: Txn, k: Key)
    ensures OpSum(BatchOps(registry, [txn]), |BatchOps(registry, [txn])|, SeedAt(k)) == HeadCredit(registry, k)(txn) + CountedAgain(k)(txn)
  {
    var inflows, edges := TxnInflows(txn), TxnEdges(registry, txn);
    TxnOpsSum(registry, txn, SeedAt(k));
    SeedAtIsCreditPart(inflows, edges, k);
    EdgeSumAppend(TxnPaired(txn), HeadEdges(registry, inflows), CreditPart(inflows, k));
  }

  lemma StreamCredit(registry: seq<RegistryEntry>, txns: seq<Txn>, each: Txn -> seq<Op>, k: Key)
    requires each == OpsOfEach(registry)
    ensures OpSum(StreamOps(txns, each), |StreamOps(txns, each)|, SeedAt(k)) ==
            TxnSum(txns, HeadCredit(registry, k)) + TxnSum(txns, CountedAgain(k))
  {
    var whole := (t: Txn) => HeadCredit(registry, k)(t) + CountedAgain(k)(t);
    forall t | t in txns
      ensures whole(t) == OpSum(each(t), |each(t)|, SeedAt(k))
    {
      TxnCredit(registry, t, k);
    }
    StreamSum(txns, each, SeedAt(k), whole);
    TxnSumAdds(txns, HeadCredit(registry, k), CountedAgain(k), whole);
  }

  /** After any run, in any batches and with any repeats, a row's bridge fund is what the head edges
      of the delivered transactions credit to it plus what flagged paired edges count again. */
  lemma FundIsHeadsAndRecounts(registry: seq<RegistryEntry>, batches: seq<seq<Txn>>, k: Key)
    requires EachIncreasing(batches)
    ensures FundOf(StoreBatches(registry, map[], batches), k)
         == TxnSum(Flatten(batches), HeadCredit(registry, k)) + TxnSum(Flatten(batches), CountedAgain(k))
  {
    var each := OpsOfEach(registry);
    var ts, ops := AfterStream(registry, batches, each);
    FundIsSeeded(ops, ts, |ops|, k);
    StreamCredit(registry, Flatten(batches), each, k);
  }

  // ---------------------------------------------------------------- head edges against own inflows

  ghost function InflowTotal(inflows: seq<Inflow>, part: Inflow -> real): (r: real) {
    if inflows == [] then 0.0 else InflowTotal(inflows[..|inflows| - 1], part) + part(inflows[|inflows| - 1])
  }

  /** An inflow that belongs to row `k`. */
  ghost predicate BelongsTo(bi: Inflow, k: Key) {
    bi.recipient == k.addr && bi.asset == Some(k.asset) && bi.evmSource == Some(k.evm)
  }

  /** The row's own inflows whose head edges are credited elsewhere, and the inflows of others whose
      head edges are credited to the row. */
  ghost function AwayPart(registry: seq<RegistryEntry>, full: seq<Inflow>, k: Key): (r: Inflow -> real) {
    (bi: Inflow) => if BelongsTo(bi, k) && !CreditedTo(full, HeadEdge(registry, bi), k) then bi.amount else 0.0
  }

  ghost function StrayPart(registry: seq<RegistryEntry>, full: seq<Inflow>, k: Key): (r: Inflow -> real) {
    (bi: Inflow) => if !BelongsTo(bi, k) && CreditedTo(full, HeadEdge(registry, bi), k) then bi.amount else 0.0
  }

  ghost function CreditedAway(registry: seq<RegistryEntry>, k: Key): (r: Txn -> real) {
    (t: Txn) => InflowTotal(TxnInflows(t), AwayPart(registry, TxnInflows(t), k))
  }

  ghost function CreditedStray(registry: seq<RegistryEntry>, k: Key): (r: Txn -> real) {
    (t: Txn) => InflowTotal(TxnInflows(t), StrayPart(registry, TxnInflows(t), k))
  }

  lemma {:induction false} HeadsAccount(registry: seq<RegistryEntry>, full: seq<Inflow>, inflows: seq<Inflow>, k: Key)
    ensures EdgeSum(HeadEdges(registry, inflows), CreditPart(full, k)) + InflowTotal(inflows, AwayPart(registry, full, k)) ==
            InflowSum(inflows, k) + InflowTotal(inflows, StrayPart(registry, full, k))
  {
    if inflows != [] {
      var n := |inflows| - 1;
      HeadsAccount(registry, full, inflows[..n], k);
      EdgeSumOne(HeadEdges(registry, inflows[..n]), HeadEdge(registry, inflows[n]), CreditPart(full, k));
    }
  }

  /** After any run the row's bridge fund is its own inflows, less those credited elsewhere, plus those
      of others credited to it, plus recounts; when look-alikes share their source, nothing is
      credited elsewhere or strays. */
  lemma FundIsInflowsAndRecounts(registry: seq<RegistryEntry>, batches: seq<seq<Txn>>, k: Key)
    requires EachIncreasing(batches)
    ensures var txns, fund := Flatten(batches), FundOf(StoreBatches(registry, map[], batches), k);
            && fund + TxnSum(txns, CreditedAway(registry, k)) ==
               TxnSum(txns, OwnInflows(k)) + TxnSum(txns, CreditedStray(registry, k)) + TxnSum(txns, CountedAgain(k))
            && ((forall t :: t in txns ==> SharedSources(TxnInflows(t))) ==>
                  fund == TxnSum(txns, OwnInflows(k)) + TxnSum(txns, CountedAgain(k)))
  {
    var txns := Flatten(batches);
    FundIsHeadsAndRecounts(registry, batches, k);
    HeadsAndOwn(registry, txns, k);
    if forall t :: t in txns ==> SharedSources(TxnInflows(t)) {
      forall t | t in txns
        ensures HeadCredit(registry, k)(t) == OwnInflows(k)(t)
      {
        HeadCreditIsOwn(registry, t, k);
      }
      TxnSumCongruent(txns, HeadCredit(registry, k), OwnInflows(k));
    }
  }

  lemma HeadsAndOwn(registry: seq<RegistryEntry>, txns: seq<Txn>, k: Key)
    ensures TxnSum(txns, HeadCredit(registry, k)) + TxnSum(txns, CreditedAway(registry, k)) ==
            TxnSum(txns, OwnInflows(k)) + TxnSum(txns, CreditedStray(registry, k))
  {
    var h, a, o, s := HeadCredit(registry, k), CreditedAway(registry, k), OwnInflows(k), CreditedStray(registry, k);
    var left, right := (t: Txn) => h(t) + a(t), (t: Txn) => o(t) + s(t);
    forall t | t in txns
      ensures left(t) == right(t)
    {
      HeadsAccount(registry, TxnInflows(t), TxnInflows(t), k);
    }
    TxnSumCongruent(txns, left, right);
    TxnSumAdds(txns, h, a, left);
    TxnSumAdds(txns, o, s, right);
  }

  // ---------------------------------------------------------------- exactly when funds are conserved

  /** No paired edge of the transaction is flagged as a bridge edge credited to `k`, unless its
      amount is zero. */
  ghost predicate NothingRecounted(txn: Txn, k: Key) {
    forall e :: e in TxnPaired(txn) && CreditedTo(TxnInflows(txn), e, k) ==> e.amount == 0.0
  }

  ghost predicate UnsignedEvents(txn: Txn) {
    forall i :: 0 <= i < |txn.events| && txn.events[i].fa.Some? ==> txn.events[i].fa.value.amount >= 0.0
  }

  lemma {:induction false} WithdrawAmounts(txn: Txn, n: nat)
    requires n <= |txn.events| && UnsignedEvents(txn)
    ensures forall w :: w in Withdraws(txn, n) ==> w.amount >= 0.0
  {
    if n > 0 {
      WithdrawAmounts(txn, n - 1);
    }
  }

  lemma {:induction false} PairedAmounts(txn: Txn, ws: seq<Side>, ds: seq<Side>, p: Pairing, inflows: seq<Inflow>, n: nat)
    requires n <= |ws| == |p| && forall w :: w in ws ==> w.amount >= 0.0
    ensures forall e :: e in PairedEdges(txn, ws, ds, p, inflows, n) ==> e.amount >= 0.0
  {
    if n > 0 {
      assert ws[n - 1] in ws;
      PairedAmounts(txn, ws, ds, p, inflows, n - 1);
    }
  }

  lemma {:induction false} EdgeSumZero(edges: seq<Edge>, part: Edge -> real)
    requires forall e :: e in edges ==> part(e) >= 0.0
    ensures EdgeSum(edges, part) >= 0.0
    ensures EdgeSum(edges, part) == 0.0 <==> forall e :: e in edges ==> part(e) == 0.0
  {
    if edges != [] {
      var n := |edges| - 1;
      assert edges == edges[..n] + [edges[n]] && edges[n] in edges;
      EdgeSumZero(edges[..n], part);
    }
  }

  lemma {:induction false} TxnSumZero(txns: seq<Txn>, part: Txn -> real)
    requires forall t :: t in txns ==> part(t) >= 0.0
    ensures TxnSum(txns, part) >= 0.0
    ensures TxnSum(txns, part) == 0.0 <==> forall t :: t in txns ==> part(t) == 0.0
  {
    if txns != [] {
      var n := |txns| - 1;
      assert txns == txns[..n] + [txns[n]] && txns[n] in txns;
      TxnSumZero(txns[..n], part);
    }
  }

  lemma RecountIsUnsigned(txn: Txn, k: Key)
    requires UnsignedEvents(txn)
    ensures CountedAgain(k)(txn) >= 0.0
    ensures CountedAgain(k)(txn) == 0.0 <==> NothingRecounted(txn, k)
  {
    if txn.indexed {
      var ws, ds := Withdraws(txn, |txn.events|), Deposits(txn, |txn.events|);
      WithdrawAmounts(txn, |txn.events|);
      PairedAmounts(txn, ws, ds, Pair(ws, ds), TxnInflows(txn), |ws|);
    }
    EdgeSumZero(TxnPaired(txn), CreditPart(TxnInflows(txn), k));
  }

  /** A row's fund is the sum of its own inflows, once per delivery, if and only if what is credited
      elsewhere makes up for what strays in and what is counted again.  When look-alikes share their
      source that means that no paired edge recounts a positive amount. */
  lemma FundConservedExactly(registry: seq<RegistryEntry>, batches: seq<seq<Txn>>, k: Key)
    requires EachIncreasing(batches) && forall t :: t in Flatten(batches) ==> UnsignedEvents(t)
    ensures var txns, fund := Flatten(batches), FundOf(StoreBatches(registry, map[], batches), k);
            && (fund == TxnSum(txns, OwnInflows(k)) <==>
                TxnSum(txns, CreditedAway(registry, k)) == TxnSum(txns, CreditedStray(registry, k)) + TxnSum(txns, CountedAgain(k)))
            && ((forall t :: t in txns ==> SharedSources(TxnInflows(t))) ==>
                  && fund >= TxnSum(txns, OwnInflows(k))
                  && (fund == TxnSum(txns, OwnInflows(k)) <==> forall t :: t in txns ==> NothingRecounted(t, k)))
  {
    FundIsInflowsAndRecounts(registry, batches, k);
    forall t | t in Flatten(batches)
      ensures CountedAgain(k)(t) >= 0.0
      ensures CountedAgain(k)(t) == 0.0 <==> NothingRecounted(t, k)
    {
      RecountIsUnsigned(t, k);
    }
    TxnSumZero(Flatten(batches), CountedAgain(k));
  }

  // ---------------------------------------------------------------- a recount that happens

  const ROW := Key("r", "usd", "evm")

  /** A bridge that delivers from a vault: a withdraw from "v", the deposit to "r" and the event. */
  const DELIVERY := Txn(1, true, map[], map["r" := "usd"],
    [Event(None, Some(FaEvent(true, "v", 5.0))),
     Event(None, Some(FaEvent(false, "r", 5.0))),
     Event(Some(BridgeEvent("b", "r", Some("evm"), 5.0)), None)])

  lemma DeliveryParts()
    ensures Withdraws(DELIVERY, 3) == [Side(0, "v", "v", 5.0)]
    ensures Deposits(DELIVERY, 3) == [Side(1, "r", "r", 5.0)]
    ensures TxnInflows(DELIVERY) == [Inflow(1, 2, "b", "r", Some("evm"), Some("usd"), 5.0)]
  {
    var t := DELIVERY;
    assert Withdraws(t, 0) == [] && Deposits(t, 0) == [] && Inflows(t, 0) == [];
    assert Withdraws(t, 1) == [Side(0, "v", "v", 5.0)] && Deposits(t, 1) == [] && Inflows(t, 1) == [];
    assert Deposits(t, 2) == [Side(1, "r", "r", 5.0)] && Withdraws(t, 2) == Withdraws(t, 1) && Inflows(t, 2) == [];
    assert Deposits(t, 3) == Deposits(t, 2) && Withdraws(t, 3) == Withdraws(t, 2);
  }

  lemma DeliveryPaired()
    ensures TxnPaired(DELIVERY) == [Edge(1, 0, "v", "r", Some("usd"), 5.0, true, Some("b"))]
  {
    var t := DELIVERY;
    DeliveryParts();
    var ws, ds, inflows := Withdraws(t, 3), Deposits(t, 3), TxnInflows(t);
    assert "v"[0] != "r"[0];
    assert ws[..0] == [];
    assert Pair(ws[..0], ds) == [];
    var p := Pair(ws, ds);
    assert p == [Some(0)];
    assert PairedEdges(t, ws, ds, p, inflows, 0) == [];
    assert PairedEdges(t, ws, ds, p, inflows, 1) == [PairedEdge(t, ws[0], ds[0], inflows)];
  }

  lemma SingleSum(txn: Txn, part: Txn -> real)
    ensures TxnSum([txn], part) == part(txn)
  {
    assert [txn][..0] == [];
  }

  lemma OneTxnFund(registry: seq<RegistryEntry>, txn: Txn, k: Key)
    requires SharedSources(TxnInflows(txn))
    ensures FundOf(StoreBatches(registry, map[], [[txn]]), k) == OwnInflows(k)(txn) + CountedAgain(k)(txn)
  {
    var batches: seq<seq<Txn>> := [[txn]];
    FlattenAppend([], [txn]);
    assert [] + batches == batches && Flatten(batches) == [txn];
    FundIsInflowsAndRecounts(registry, batches, k);
    SingleSum(txn, OwnInflows(k));
    SingleSum(txn, CountedAgain(k));
  }

  /** Five units come in over the bridge and ten are recorded. */
  lemma DeliveryCountsTwice()
    ensures FundOf(StoreBatches([], map[], [[DELIVERY]]), ROW) == 10.0
    ensures OwnInflows(ROW)(DELIVERY) == 5.0
  {
    DeliveryParts();
    RowCredits();
    OneTxnFund([], DELIVERY, ROW);
  }

  lemma RowCredits()
    ensures OwnInflows(ROW)(DELIVERY) == 5.0 && CountedAgain(ROW)(DELIVERY) == 5.0
  {
    DeliveryParts();
    DeliveryPaired();
    var inflows, edges := TxnInflows(DELIVERY), TxnPaired(DELIVERY);
    assert inflows[..0] == [] && edges[..0] == [];
    assert InflowSum(inflows, ROW) == InflowSum([], ROW) + 5.0;
    assert MatchInflow(inflows, edges[0]) == Some(inflows[0]);
    assert EdgeSum(edges, CreditPart(inflows, ROW)) == EdgeSum([], CreditPart(inflows, ROW)) + CreditPart(inflows, ROW)(edges[0]);
  }
}

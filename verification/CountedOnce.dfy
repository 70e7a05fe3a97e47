/** When a transaction's inflows are each counted exactly once, for their own sources. */
module CountedOnce {
  import opened Prelude
  import opened EdgePairing
  import opened Extractor
  import opened Rollup
  import opened RollupHistory
  import opened Storer
  import opened BatchIndependence
  import opened Conservation

  // ---------------------------------------------------------------- counting

  ghost function Tally(inflows: seq<Inflow>, p: Inflow -> bool): (r: nat) {
    if inflows == [] then 0 else Tally(inflows[..|inflows| - 1], p) + if p(inflows[|inflows| - 1]) then 1 else 0
  }

  lemma {:induction false} TallyGrows(inflows: seq<Inflow>, p: Inflow -> bool, q: Inflow -> bool)
    requires forall bi :: bi in inflows && p(bi) ==> q(bi)
    ensures Tally(inflows, p) <= Tally(inflows, q)
    ensures (exists bi :: bi in inflows && q(bi) && !p(bi)) ==> Tally(inflows, p) < Tally(inflows, q)
  {
    if inflows != [] {
      var n := |inflows| - 1;
      assert inflows == inflows[..n] + [inflows[n]] && inflows[n] in inflows;
      TallyGrows(inflows[..n], p, q);
    }
  }

  lemma {:induction false} TallyNone(inflows: seq<Inflow>, p: Inflow -> bool)
    requires forall bi :: bi in inflows ==> !p(bi)
    ensures Tally(inflows, p) == 0
  {
    if inflows != [] {
      assert inflows[|inflows| - 1] in inflows;
      TallyNone(inflows[..|inflows| - 1], p);
    }
  }

  /** A seed of this amount into row `k`. */
  ghost function SeedOne(k: Key, amount: real): (r: Op -> real) {
    (op: Op) => if op.Seed? && Key(op.to, op.asset, op.evm) == k && op.amount == amount then 1.0 else 0.0
  }

  /** How often a transaction seeds this amount into row `k`. */
  ghost function Seeds(registry: seq<RegistryEntry>, txn: Txn, k: Key, amount: real): (r: real) {
    OpSum(BatchOps(registry, [txn]), |BatchOps(registry, [txn])|, SeedOne(k, amount))
  }

  /** An inflow of this amount that belongs to row `k`. */
  ghost function Own(k: Key, amount: real): (r: Inflow -> bool) {
    (bi: Inflow) => bi.recipient == k.addr && bi.asset == Some(k.asset) && bi.amount == amount && bi.evmSource == Some(k.evm)
  }

  /** Every inflow with a resolved asset and a source is seeded exactly once, into its own row. */
  ghost predicate EachCountedOnce(registry: seq<RegistryEntry>, txn: Txn) {
    forall k, amount :: Seeds(registry, txn, k, amount) == Tally(TxnInflows(txn), Own(k, amount)) as real
  }

  // ---------------------------------------------------------------- seeds are heads and recounts

  ghost function EdgeOne(inflows: seq<Inflow>, k: Key, amount: real): (r: Edge -> real) {
    (e: Edge) => if CreditedTo(inflows, e, k) && e.amount == amount then 1.0 else 0.0
  }

  /** An inflow whose head edge is credited to row `k` with this amount. */
  ghost function Headed(registry: seq<RegistryEntry>, full: seq<Inflow>, k: Key, amount: real): (r: Inflow -> bool) {
    (bi: Inflow) => CreditedTo(full, HeadEdge(registry, bi), k) && bi.amount == amount
  }

  lemma {:induction false} HeadsTally(registry: seq<RegistryEntry>, full: seq<Inflow>, inflows: seq<Inflow>, k: Key, amount: real)
    ensures EdgeSum(HeadEdges(registry, inflows), EdgeOne(full, k, amount)) == Tally(inflows, Headed(registry, full, k, amount)) as real
  {
    if inflows != [] {
      var n := |inflows| - 1;
      HeadsTally(registry, full, inflows[..n], k, amount);
      EdgeSumOne(HeadEdges(registry, inflows[..n]), HeadEdge(registry, inflows[n]), EdgeOne(full, k, amount));
    }
  }

  /** How often paired edges seed this amount into row `k`. */
  ghost function Recounts(txn: Txn, k: Key, amount: real): (r: real) {
    EdgeSum(TxnPaired(txn), EdgeOne(TxnInflows(txn), k, amount))
  }

  lemma SeedOneIsEdgeOne(inflows: seq<Inflow>, edges: seq<Edge>, k: Key, amount: real)
    ensures EdgeSum(edges, Through(inflows, SeedOne(k, amount))) == EdgeSum(edges, EdgeOne(inflows, k, amount))
  {
    var f, g := Through(inflows, SeedOne(k, amount)), EdgeOne(inflows, k, amount);
    forall e | e in edges
      ensures f(e) == g(e)
    {
      var op := OpOf(inflows, e);
      assert f(e) == if op.Some? then SeedOne(k, amount)(op.value) else 0.0;
      assert k == Key(k.addr, k.asset, k.evm);
    }
    EdgeSumCongruent(edges, f, g);
  }

  lemma SeedsAreHeadsAndRecounts(registry: seq<RegistryEntry>, txn: Txn, k: Key, amount: real)
    ensures Seeds(registry, txn, k, amount) ==
            Recounts(txn, k, amount) + Tally(TxnInflows(txn), Headed(registry, TxnInflows(txn), k, amount)) as real
  {
    var inflows := TxnInflows(txn);
    TxnOpsSum(registry, txn, SeedOne(k, amount));
    SeedOneIsEdgeOne(inflows, TxnEdges(registry, txn), k, amount);
    EdgeSumAppend(TxnPaired(txn), HeadEdges(registry, inflows), EdgeOne(inflows, k, amount));
    HeadsTally(registry, inflows, inflows, k, amount);
  }

  lemma RecountsAreSeeds(txn: Txn, k: Key, amount: real)
    ensures Recounts(txn, k, amount) >= 0.0
    ensures Recounts(txn, k, amount) == 0.0 <==>
            forall e :: e in TxnPaired(txn) ==> !(CreditedTo(TxnInflows(txn), e, k) && e.amount == amount)
  {
    EdgeSumZero(TxnPaired(txn), EdgeOne(TxnInflows(txn), k, amount));
  }

  // ---------------------------------------------------------------- look-alikes

  lemma {:induction false} SameLook(inflows: seq<Inflow>, e: Edge, f: Edge)
    requires e.version == f.version && e.to == f.to && e.amount == f.amount
    ensures MatchInflow(inflows, e) == MatchInflow(inflows, f)
  {
    if inflows != [] {
      SameLook(inflows[1..], e, f);
    }
  }

  lemma AlikeAssets(txn: Txn, a: Inflow, b: Inflow)
    requires a in TxnInflows(txn) && b in TxnInflows(txn) && Alike(a, b)
    ensures a.asset == b.asset && a.version == b.version == txn.version
  {
    var i :| 0 <= i < |TxnInflows(txn)| && TxnInflows(txn)[i] == a;
    var j :| 0 <= j < |TxnInflows(txn)| && TxnInflows(txn)[j] == b;
    InflowAssets(txn, |txn.events|, i);
    InflowAssets(txn, |txn.events|, j);
  }

  /** The source that all bridge edges with this look are credited to. */
  ghost function LookSource(registry: seq<RegistryEntry>, txn: Txn, bi: Inflow): (r: Option<string>) {
    SourceOf(TxnInflows(txn), HeadEdge(registry, bi))
  }

  lemma OneLookOneSource(registry: seq<RegistryEntry>, txn: Txn, bi: Inflow, e: Edge)
    requires bi in TxnInflows(txn) && e.version == txn.version && e.to == bi.recipient && e.amount == bi.amount
    ensures SourceOf(TxnInflows(txn), e) == LookSource(registry, txn, bi)
  {
    AlikeAssets(txn, bi, bi);
    SameLook(TxnInflows(txn), e, HeadEdge(registry, bi));
  }

  lemma LookSourceIsOne(registry: seq<RegistryEntry>, txn: Txn, bi: Inflow) returns (first: Inflow)
    requires bi in TxnInflows(txn)
    ensures first in TxnInflows(txn) && Alike(first, bi) && LookSource(registry, txn, bi) == first.evmSource
  {
    var inflows := TxnInflows(txn);
    var i :| 0 <= i < |inflows| && inflows[i] == bi;
    AlikeAssets(txn, bi, bi);
    var j := MatchIsFirst(inflows, HeadEdge(registry, bi), i);
    first := inflows[j];
  }

  // ---------------------------------------------------------------- the theorem

  /** No paired edge is flagged as a bridge edge with an asset and a source. */
  ghost predicate NoPairedSeed(txn: Txn) {
    forall e, k :: e in TxnPaired(txn) ==> !CreditedTo(TxnInflows(txn), e, k)
  }

  lemma SharedIsOwn(registry: seq<RegistryEntry>, txn: Txn, k: Key, amount: real)
    requires SharedSources(TxnInflows(txn))
    ensures Tally(TxnInflows(txn), Headed(registry, TxnInflows(txn), k, amount)) == Tally(TxnInflows(txn), Own(k, amount))
  {
    var inflows := TxnInflows(txn);
    var h, o := Headed(registry, inflows, k, amount), Own(k, amount);
    forall bi | bi in inflows
      ensures h(bi) <==> o(bi)
    {
      var first := LookSourceIsOne(registry, txn, bi);
      if bi.asset.Some? {
        AlikeAssets(txn, first, bi);
      }
    }
    TallyGrows(inflows, h, o);
    TallyGrows(inflows, o, h);
  }

  /** Where the look's source is that of row `k`, all inflows of the row have head edges credited to it. */
  lemma OwnAreHeaded(registry: seq<RegistryEntry>, txn: Txn, k: Key, amount: real)
    requires forall bi :: bi in TxnInflows(txn) && bi.recipient == k.addr && bi.amount == amount ==> LookSource(registry, txn, bi) == Some(k.evm)
    ensures var h, o := Headed(registry, TxnInflows(txn), k, amount), Own(k, amount);
            && Tally(TxnInflows(txn), o) <= Tally(TxnInflows(txn), h)
            && ((exists bi :: bi in TxnInflows(txn) && h(bi) && !o(bi)) ==> Tally(TxnInflows(txn), o) < Tally(TxnInflows(txn), h))
  {
    TallyGrows(TxnInflows(txn), Own(k, amount), Headed(registry, TxnInflows(txn), k, amount));
  }

  /** A paired seed is one seed too many. */
  lemma PairedSeedIsExtra(registry: seq<RegistryEntry>, txn: Txn, e: Edge, k: Key)
    requires e in TxnPaired(txn) && CreditedTo(TxnInflows(txn), e, k)
    ensures Seeds(registry, txn, k, e.amount) > Tally(TxnInflows(txn), Own(k, e.amount)) as real
  {
    assert e in TxnEdges(registry, txn);
    EdgeOfTxn(registry, txn, e);
    forall bi | bi in TxnInflows(txn) && bi.recipient == k.addr && bi.amount == e.amount
      ensures LookSource(registry, txn, bi) == Some(k.evm)
    {
      OneLookOneSource(registry, txn, bi, e);
    }
    OwnAreHeaded(registry, txn, k, e.amount);
    RecountsAreSeeds(txn, k, e.amount);
    SeedsAreHeadsAndRecounts(registry, txn, k, e.amount);
  }

  /** An inflow whose look is credited to another source: some row gets too few or too many seeds. */
  lemma StraySourceMiscounts(registry: seq<RegistryEntry>, txn: Txn, x: Inflow) returns (k: Key)
    requires x in TxnInflows(txn) && x.asset.Some? && x.evmSource != LookSource(registry, txn, x)
    ensures Seeds(registry, txn, k, x.amount) != Tally(TxnInflows(txn), Own(k, x.amount)) as real
  {
    var inflows, f := TxnInflows(txn), LookSource(registry, txn, x);
    k := Key(x.recipient, x.asset.value, if x.evmSource.Some? then x.evmSource.value else f.value);
    var h, o := Headed(registry, inflows, k, x.amount), Own(k, x.amount);
    forall bi | bi in inflows && bi.recipient == k.addr && bi.amount == x.amount
      ensures LookSource(registry, txn, bi) == f
    {
      AlikeAssets(txn, bi, x);
      OneLookOneSource(registry, txn, x, HeadEdge(registry, bi));
    }
    RecountsAreSeeds(txn, k, x.amount);
    SeedsAreHeadsAndRecounts(registry, txn, k, x.amount);
    if x.evmSource.Some? {
      TallyNone(inflows, h);
      NothingForStray(registry, txn, x, k);
      TallyGrows(inflows, h, o);
      assert o(x) && !h(x);
    } else {
      AlikeAssets(txn, x, x);
      OwnAreHeaded(registry, txn, k, x.amount);
      assert h(x) && !o(x);
    }
  }

  lemma NothingForStray(registry: seq<RegistryEntry>, txn: Txn, x: Inflow, k: Key)
    requires x in TxnInflows(txn) && k.addr == x.recipient && LookSource(registry, txn, x) != Some(k.evm)
    ensures Recounts(txn, k, x.amount) == 0.0
  {
    forall e | e in TxnPaired(txn)
      ensures !(CreditedTo(TxnInflows(txn), e, k) && e.amount == x.amount)
    {
      assert e in TxnEdges(registry, txn);
      EdgeOfTxn(registry, txn, e);
      if e.to == x.recipient && e.amount == x.amount {
        OneLookOneSource(registry, txn, x, e);
      }
    }
    RecountsAreSeeds(txn, k, x.amount);
  }

  lemma OnceMeansShared(registry: seq<RegistryEntry>, txn: Txn)
    requires EachCountedOnce(registry, txn)
    ensures SharedSources(TxnInflows(txn))
  {
    forall x | x in TxnInflows(txn) && x.asset.Some?
      ensures x.evmSource == LookSource(registry, txn, x)
    {
      if x.evmSource != LookSource(registry, txn, x) {
        var k := StraySourceMiscounts(registry, txn, x);
      }
    }
    forall a, b | a in TxnInflows(txn) && b in TxnInflows(txn) && Alike(a, b) && a.asset.Some?
      ensures a.evmSource == b.evmSource
    {
      AlikeAssets(txn, a, b);
      OneLookOneSource(registry, txn, a, HeadEdge(registry, b));
    }
  }

  /** Every inflow of a transaction with a resolved asset and a source is seeded exactly once, for its
      own source, if and only if look-alikes share their source and no paired edge is a seed. */
  lemma CountedOnceExactly(registry: seq<RegistryEntry>, txn: Txn)
    ensures EachCountedOnce(registry, txn) <==> SharedSources(TxnInflows(txn)) && NoPairedSeed(txn)
  {
    if EachCountedOnce(registry, txn) {
      OnceMeansShared(registry, txn);
      forall e, k | e in TxnPaired(txn)
        ensures !CreditedTo(TxnInflows(txn), e, k)
      {
        if CreditedTo(TxnInflows(txn), e, k) {
          PairedSeedIsExtra(registry, txn, e, k);
        }
      }
    }
    if SharedSources(TxnInflows(txn)) && NoPairedSeed(txn) {
      forall k, amount
        ensures Seeds(registry, txn, k, amount) == Tally(TxnInflows(txn), Own(k, amount)) as real
      {
        SharedIsOwn(registry, txn, k, amount);
        RecountsAreSeeds(txn, k, amount);
        SeedsAreHeadsAndRecounts(registry, txn, k, amount);
      }
    }
  }
}

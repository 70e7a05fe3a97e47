/** Extraction of transfer edges and bridge inflows from transactions whose events are already
    parsed. */
module Extractor {
  import opened Prelude
  import opened EdgePairing

  /** A registered bridge event that parsed, with the EVM source from the event or the payload. */
  datatype BridgeEvent = BridgeEvent(bridgeName: string, recipient: string, evmSource: Option<string>, amount: real)

  /** A well-formed fungible-asset withdraw or deposit. */
  datatype FaEvent = FaEvent(isWithdraw: bool, storageId: string, amount: real)

  /** An event may be both: a registered event that does not parse falls through to `fa`. */
  datatype Event = Event(bridge: Option<BridgeEvent>, fa: Option<FaEvent>)

  /** `owners` and `assets` resolve storage ids; `indexed` is false for transactions that are
      skipped (not a user transaction, or without timestamp or data). */
  datatype Txn = Txn(version: nat, indexed: bool, owners: map<string, string>, assets: map<string, string>, events: seq<Event>)

  datatype Inflow = Inflow(version: nat, eventIndex: nat, bridgeName: string, recipient: string,
                           evmSource: Option<string>, asset: Option<string>, amount: real)

  datatype Edge = Edge(version: nat, eventIndex: nat, from: string, to: string, asset: Option<string>, amount: real,
                       isBridge: bool, bridgeName: Option<string>)

  datatype RegistryEntry = RegistryEntry(bridgeName: string, moduleAddress: string)

  // ---------------------------------------------------------------- classification

  function Lookup(m: map<string, string>, k: string): (r: Option<string>) {
    if k in m then Some(m[k]) else None
  }

  function SideOf(txn: Txn, i: nat, fa: FaEvent): (r: Side) {
    Side(i, if fa.storageId in txn.owners then txn.owners[fa.storageId] else fa.storageId, fa.storageId, fa.amount)
  }

  predicate IsWithdraw(e: Event) { e.bridge.None? && e.fa.Some? && e.fa.value.isWithdraw }

  predicate IsDeposit(e: Event) { e.bridge.None? && e.fa.Some? && !e.fa.value.isWithdraw }

  /** The withdraws among the first `n` events. */
  function Withdraws(txn: Txn, n: nat): (r: seq<Side>)
    requires n <= |txn.events|
  {
    if n == 0 then []
    else Withdraws(txn, n - 1) + if IsWithdraw(txn.events[n - 1]) then [SideOf(txn, n - 1, txn.events[n - 1].fa.value)] else []
  }

  function Deposits(txn: Txn, n: nat): (r: seq<Side>)
    requires n <= |txn.events|
  {
    if n == 0 then []
    else Deposits(txn, n - 1) + if IsDeposit(txn.events[n - 1]) then [SideOf(txn, n - 1, txn.events[n - 1].fa.value)] else []
  }

  /** The asset of the first matching deposit whose asset is known. */
  function ResolveAsset(txn: Txn, ds: seq<Side>, recipient: string, amount: real): (r: Option<string>) {
    if ds == [] then None
    else if ds[0].address == recipient && ds[0].amount == amount && ds[0].storageId in txn.assets then Some(txn.assets[ds[0].storageId])
    else ResolveAsset(txn, ds[1..], recipient, amount)
  }

  function InflowOf(txn: Txn, i: nat, b: BridgeEvent): (r: Inflow) {
    Inflow(txn.version, i, b.bridgeName, b.recipient, b.evmSource,
           ResolveAsset(txn, Deposits(txn, |txn.events|), b.recipient, b.amount), b.amount)
  }

  function Inflows(txn: Txn, n: nat): (r: seq<Inflow>)
    requires n <= |txn.events|
  {
    if n == 0 then []
    else Inflows(txn, n - 1) + if txn.events[n - 1].bridge.Some? then [InflowOf(txn, n - 1, txn.events[n - 1].bridge.value)] else []
  }

  // ---------------------------------------------------------------- edges

  /** The first inflow to this recipient with this amount. */
  function FindInflow(inflows: seq<Inflow>, recipient: string, amount: real): (r: Option<Inflow>) {
    if inflows == [] then None
    else if inflows[0].recipient == recipient && inflows[0].amount == amount then Some(inflows[0])
    else FindInflow(inflows[1..], recipient, amount)
  }

  function PairedEdge(txn: Txn, w: Side, d: Side, inflows: seq<Inflow>): (r: Edge) {
    var asset := Lookup(txn.assets, w.storageId);
    var bridge := FindInflow(inflows, d.address, d.amount);
    Edge(txn.version, w.eventIndex, w.address, d.address,
         if asset.Some? then asset else Lookup(txn.assets, d.storageId), w.amount,
         bridge.Some?, if bridge.Some? then Some(bridge.value.bridgeName) else None)
  }

  /** The edges of the paired sides among the first `n` withdraws. */
  function PairedEdges(txn: Txn, ws: seq<Side>, ds: seq<Side>, p: Pairing, inflows: seq<Inflow>, n: nat): (r: seq<Edge>)
    requires n <= |ws| == |p|
  {
    if n == 0 then []
    else
      PairedEdges(txn, ws, ds, p, inflows, n - 1)
      + if p[n - 1].Some? && p[n - 1].value < |ds| then [PairedEdge(txn, ws[n - 1], ds[p[n - 1].value], inflows)] else []
  }

  function HeadAddress(registry: seq<RegistryEntry>, bridgeName: string): (r: string) {
    if registry == [] then "bridge::" + bridgeName
    else if registry[0].bridgeName == bridgeName then registry[0].moduleAddress
    else HeadAddress(registry[1..], bridgeName)
  }

  function HeadEdge(registry: seq<RegistryEntry>, bi: Inflow): (r: Edge) {
    Edge(bi.version, bi.eventIndex, HeadAddress(registry, bi.bridgeName), bi.recipient, bi.asset, bi.amount, true, Some(bi.bridgeName))
  }

  function HeadEdges(registry: seq<RegistryEntry>, inflows: seq<Inflow>): (r: seq<Edge>)
    ensures |r| == |inflows|
    ensures forall i :: 0 <= i < |r| ==> r[i] == HeadEdge(registry, inflows[i])
  {
    if inflows == [] then [] else HeadEdges(registry, inflows[..|inflows| - 1]) + [HeadEdge(registry, inflows[|inflows| - 1])]
  }

  function TxnInflows(txn: Txn): (r: seq<Inflow>) {
    if txn.indexed then Inflows(txn, |txn.events|) else []
  }

  function TxnPaired(txn: Txn): (r: seq<Edge>) {
    if !txn.indexed then []
    else
      var ws, ds := Withdraws(txn, |txn.events|), Deposits(txn, |txn.events|);
      PairedEdges(txn, ws, ds, Pair(ws, ds), TxnInflows(txn), |ws|)
  }

  function TxnEdges(registry: seq<RegistryEntry>, txn: Txn): (r: seq<Edge>) {
    TxnPaired(txn) + HeadEdges(registry, TxnInflows(txn))
  }

  function BatchEdges(registry: seq<RegistryEntry>, txns: seq<Txn>): (r: seq<Edge>) {
    if txns == [] then [] else BatchEdges(registry, txns[..|txns| - 1]) + TxnEdges(registry, txns[|txns| - 1])
  }

  function BatchInflows(txns: seq<Txn>): (r: seq<Inflow>) {
    if txns == [] then [] else BatchInflows(txns[..|txns| - 1]) + TxnInflows(txns[|txns| - 1])
  }

  /** One more transaction of a batch; one that is not indexed adds nothing. */
  lemma BatchNext(registry: seq<RegistryEntry>, txns: seq<Txn>, i: nat)
    requires i < |txns|
    ensures BatchEdges(registry, txns[..i + 1]) == BatchEdges(registry, txns[..i]) + if txns[i].indexed then TxnEdges(registry, txns[i]) else []
    ensures BatchInflows(txns[..i + 1]) == BatchInflows(txns[..i]) + if txns[i].indexed then TxnInflows(txns[i]) else []
  {
    var head := txns[..i + 1];
    assert head[..|head| - 1] == txns[..i] && head[|head| - 1] == txns[i];
    assert !txns[i].indexed ==> TxnEdges(registry, txns[i]) == [];
  }

  // ---------------------------------------------------------------- the loops

  class AddressReputationExtractor {
    const registry: seq<RegistryEntry>

    constructor (registry: seq<RegistryEntry>)
      ensures this.registry == registry
    {
      this.registry := registry;
    }

    /** First pass over a transaction's events.  The inflows have no asset yet. */
    method Classify(txn: Txn) returns (ws: seq<Side>, ds: seq<Side>, raw: seq<Inflow>)
      ensures ws == Withdraws(txn, |txn.events|) && ds == Deposits(txn, |txn.events|)
      ensures |raw| == |Inflows(txn, |txn.events|)|
      ensures forall i :: 0 <= i < |raw| ==> raw[i] == Inflows(txn, |txn.events|)[i].(asset := None)
    {
      ws, ds, raw := [], [], [];
      for n := 0 to |txn.events|
        invariant ws == Withdraws(txn, n) && ds == Deposits(txn, n)
        invariant |raw| == |Inflows(txn, n)|
        invariant forall i :: 0 <= i < |raw| ==> raw[i] == Inflows(txn, n)[i].(asset := None)
      {
        var e := txn.events[n];
        if e.bridge.Some? {
          var b := e.bridge.value;
          raw := raw + [Inflow(txn.version, n, b.bridgeName, b.recipient, b.evmSource, None, b.amount)];
        } else if e.fa.Some? {
          var side := SideOf(txn, n, e.fa.value);
          if e.fa.value.isWithdraw {
            ws := ws + [side];
          } else {
            ds := ds + [side];
          }
        }
      }
    }

    method PairEdges(txn: Txn, ws: seq<Side>, ds: seq<Side>, raw: seq<Inflow>, ghost full: seq<Inflow>) returns (edges: seq<Edge>)
      requires |raw| == |full| && forall i :: 0 <= i < |raw| ==> raw[i] == full[i].(asset := None)
      ensures edges == PairedEdges(txn, ws, ds, Pair(ws, ds), full, |ws|)
    {
      var p := PairSides(ws, ds);
      PairIsGreedy(ws, ds);
      edges := [];
      for i := 0 to |ws|
        invariant edges == PairedEdges(txn, ws, ds, p, full, i)
      {
        if p[i].Some? {
          var d := ds[p[i].value];
          var bridge := FindInflow(raw, d.address, d.amount);
          FindInflowIgnoresAsset(raw, full, d.address, d.amount);
          var asset := Lookup(txn.assets, ws[i].storageId);
          if asset.None? {
            asset := Lookup(txn.assets, d.storageId);
          }
          edges := edges + [Edge(txn.version, ws[i].eventIndex, ws[i].address, d.address, asset, ws[i].amount,
                                 bridge.Some?, if bridge.Some? then Some(bridge.value.bridgeName) else None)];
        }
      }
    }

    /** Edges and inflows of one transaction: paired edges first, then one head edge per inflow. */
    method ProcessTxn(txn: Txn) returns (edges: seq<Edge>, inflows: seq<Inflow>)
      requires txn.indexed
      ensures edges == TxnEdges(registry, txn) && inflows == TxnInflows(txn)
    {
      var ws, ds, raw := Classify(txn);
      edges := PairEdges(txn, ws, ds, raw, TxnInflows(txn));
      ghost var heads := HeadEdges(registry, TxnInflows(txn));
      inflows := [];
      for i := 0 to |raw|
        invariant inflows == TxnInflows(txn)[..i]
        invariant edges == TxnPaired(txn) + heads[..i]
      {
        InflowAssets(txn, |txn.events|, i);
        var bi := raw[i].(asset := ResolveAsset(txn, ds, raw[i].recipient, raw[i].amount));
        inflows := inflows + [bi];
        edges := edges + [HeadEdge(registry, bi)];
      }
      assert heads[..|heads|] == heads;
    }

    method Process(txns: seq<Txn>) returns (edges: seq<Edge>, inflows: seq<Inflow>)
      ensures edges == BatchEdges(registry, txns) && inflows == BatchInflows(txns)
    {
      edges, inflows := [], [];
      for i := 0 to |txns|
        invariant edges == BatchEdges(registry, txns[..i]) && inflows == BatchInflows(txns[..i])
      {
        BatchNext(registry, txns, i);
        if txns[i].indexed {
          var e, n := ProcessTxn(txns[i]);
          edges, inflows := edges + e, inflows + n;
        }
      }
      assert txns[..|txns|] == txns;
    }
  }

  lemma {:induction false} InflowAssets(txn: Txn, n: nat, i: nat)
    requires n <= |txn.events| && i < |Inflows(txn, n)|
    ensures var bi := Inflows(txn, n)[i];
            && bi.asset == ResolveAsset(txn, Deposits(txn, |txn.events|), bi.recipient, bi.amount)
            && bi.version == txn.version
            && bi.eventIndex < n && txn.events[bi.eventIndex].bridge.Some?
  {
    if i < |Inflows(txn, n - 1)| {
      InflowAssets(txn, n - 1, i);
    }
  }

  lemma {:induction false} FindInflowIgnoresAsset(raw: seq<Inflow>, full: seq<Inflow>, recipient: string, amount: real)
    requires |raw| == |full| && forall i :: 0 <= i < |raw| ==> raw[i] == full[i].(asset := None)
    ensures var a, b := FindInflow(raw, recipient, amount), FindInflow(full, recipient, amount);
            (a.None? <==> b.None?) && (a.Some? ==> a.value == b.value.(asset := None))
  {
    if raw != [] {
      FindInflowIgnoresAsset(raw[1..], full[1..], recipient, amount);
    }
  }

  // ---------------------------------------------------------------- every edge has its own key

  ghost predicate DistinctKeys(edges: seq<Edge>) {
    forall i, j :: 0 <= i < j < |edges| ==> (edges[i].version, edges[i].eventIndex) != (edges[j].version, edges[j].eventIndex)
  }

  /** Rising event indices below `limit`, all of one kind of event. */
  ghost predicate IndicesRise(txn: Txn, indices: seq<nat>, limit: nat, bridge: bool) {
    && (forall i :: 0 <= i < |indices| ==> indices[i] < limit <= |txn.events| && txn.events[indices[i]].bridge.Some? == bridge)
    && forall i, j :: 0 <= i < j < |indices| ==> indices[i] < indices[j]
  }

  function SideIndices(ss: seq<Side>): (r: seq<nat>) {
    seq(|ss|, i requires 0 <= i < |ss| => ss[i].eventIndex)
  }

  function InflowIndices(bis: seq<Inflow>): (r: seq<nat>) {
    seq(|bis|, i requires 0 <= i < |bis| => bis[i].eventIndex)
  }

  lemma IndicesExtend(txn: Txn, indices: seq<nat>, limit: nat, x: nat, bridge: bool)
    requires IndicesRise(txn, indices, limit, bridge) && limit <= x < |txn.events|
    ensures IndicesRise(txn, indices, x + 1, bridge)
    ensures txn.events[x].bridge.Some? == bridge ==> IndicesRise(txn, indices + [x], x + 1, bridge)
  {
  }

  lemma {:induction false} WithdrawsRise(txn: Txn, n: nat)
    requires n <= |txn.events|
    ensures IndicesRise(txn, SideIndices(Withdraws(txn, n)), n, false)
  {
    if n > 0 {
      WithdrawsRise(txn, n - 1);
      var e, before := txn.events[n - 1], Withdraws(txn, n - 1);
      IndicesExtend(txn, SideIndices(before), n - 1, n - 1, false);
      if IsWithdraw(e) {
        assert SideIndices(Withdraws(txn, n)) == SideIndices(before) + [n - 1];
      } else {
        assert Withdraws(txn, n) == before;
      }
    }
  }

  function EdgeIndices(edges: seq<Edge>): (r: seq<nat>) {
    seq(|edges|, i requires 0 <= i < |edges| => edges[i].eventIndex)
  }

  ghost predicate OneVersion(edges: seq<Edge>, version: nat) {
    forall i :: 0 <= i < |edges| ==> edges[i].version == version
  }

  /** The limit after the first `n` withdraws. */
  function Limit(ws: seq<Side>, n: nat): (r: nat)
    requires n <= |ws|
  {
    if n == 0 then 0 else ws[n - 1].eventIndex + 1
  }

  lemma {:induction false} PairedRise(txn: Txn, ws: seq<Side>, ds: seq<Side>, p: Pairing, inflows: seq<Inflow>, n: nat)
    requires n <= |ws| == |p| && ws == Withdraws(txn, |txn.events|)
    ensures IndicesRise(txn, EdgeIndices(PairedEdges(txn, ws, ds, p, inflows, n)), Limit(ws, n), false)
    ensures OneVersion(PairedEdges(txn, ws, ds, p, inflows, n), txn.version)
  {
    if n > 0 {
      PairedRise(txn, ws, ds, p, inflows, n - 1);
      WithdrawsRise(txn, |txn.events|);
      assert SideIndices(ws)[n - 1] == ws[n - 1].eventIndex;
      assert n > 1 ==> SideIndices(ws)[n - 2] == ws[n - 2].eventIndex;
      var before, after := PairedEdges(txn, ws, ds, p, inflows, n - 1), PairedEdges(txn, ws, ds, p, inflows, n);
      IndicesExtend(txn, EdgeIndices(before), Limit(ws, n - 1), ws[n - 1].eventIndex, false);
      if p[n - 1].Some? && p[n - 1].value < |ds| {
        assert after == before + [PairedEdge(txn, ws[n - 1], ds[p[n - 1].value], inflows)];
        assert EdgeIndices(after) == EdgeIndices(before) + [ws[n - 1].eventIndex];
      } else {
        assert after == before;
      }
    }
  }

  lemma {:induction false} InflowsRise(txn: Txn, n: nat)
    requires n <= |txn.events|
    ensures IndicesRise(txn, InflowIndices(Inflows(txn, n)), n, true)
  {
    if n > 0 {
      InflowsRise(txn, n - 1);
      var e, before := txn.events[n - 1], Inflows(txn, n - 1);
      IndicesExtend(txn, InflowIndices(before), n - 1, n - 1, true);
      if e.bridge.Some? {
        assert InflowIndices(Inflows(txn, n)) == InflowIndices(before) + [n - 1];
      } else {
        assert Inflows(txn, n) == before;
      }
    }
  }

  lemma HeadsRise(registry: seq<RegistryEntry>, txn: Txn)
    ensures IndicesRise(txn, EdgeIndices(HeadEdges(registry, Inflows(txn, |txn.events|))), |txn.events|, true)
    ensures OneVersion(HeadEdges(registry, Inflows(txn, |txn.events|)), txn.version)
  {
    var bis := Inflows(txn, |txn.events|);
    var heads := HeadEdges(registry, bis);
    InflowsRise(txn, |txn.events|);
    assert EdgeIndices(heads) == InflowIndices(bis);
    forall i | 0 <= i < |heads|
      ensures heads[i].version == txn.version
    {
      InflowAssets(txn, |txn.events|, i);
    }
  }

  lemma RisingDistinct(txn: Txn, paired: seq<Edge>, limit: nat, heads: seq<Edge>)
    requires IndicesRise(txn, EdgeIndices(paired), limit, false) && IndicesRise(txn, EdgeIndices(heads), |txn.events|, true)
    ensures DistinctKeys(paired + heads)
  {
    var all, a, b := paired + heads, EdgeIndices(paired), EdgeIndices(heads);
    forall i, j | 0 <= i < j < |all|
      ensures all[i].eventIndex != all[j].eventIndex
    {
      if j < |paired| {
        assert a[i] < a[j];
      } else if i < |paired| {
        assert txn.events[a[i]].bridge.None? && txn.events[b[j - |paired|]].bridge.Some?;
      } else {
        assert b[i - |paired|] < b[j - |paired|];
      }
    }
  }

  lemma TxnKeysDistinct(registry: seq<RegistryEntry>, txn: Txn)
    ensures DistinctKeys(TxnEdges(registry, txn))
    ensures OneVersion(TxnEdges(registry, txn), txn.version)
  {
    if txn.indexed {
      var ws, ds := Withdraws(txn, |txn.events|), Deposits(txn, |txn.events|);
      PairedRise(txn, ws, ds, Pair(ws, ds), TxnInflows(txn), |ws|);
      InflowsRise(txn, |txn.events|);
      HeadsRise(registry, txn);
      RisingDistinct(txn, TxnPaired(txn), Limit(ws, |ws|), HeadEdges(registry, TxnInflows(txn)));
    }
  }

  ghost predicate HasVersion(txns: seq<Txn>, version: nat) {
    exists i :: 0 <= i < |txns| && txns[i].version == version
  }

  lemma EdgeOfTxn(registry: seq<RegistryEntry>, txn: Txn, e: Edge)
    requires e in TxnEdges(registry, txn)
    ensures e.version == txn.version
  {
    TxnKeysDistinct(registry, txn);
  }

  lemma {:induction false} EdgeOfBatch(registry: seq<RegistryEntry>, txns: seq<Txn>, e: Edge)
    requires e in BatchEdges(registry, txns)
    ensures HasVersion(txns, e.version)
  {
    var n := |txns| - 1;
    if e in BatchEdges(registry, txns[..n]) {
      EdgeOfBatch(registry, txns[..n], e);
      var t :| 0 <= t < n && txns[..n][t].version == e.version;
      assert txns[t].version == e.version;
    } else {
      EdgeOfTxn(registry, txns[n], e);
    }
  }

  lemma DistinctJoin(before: seq<Edge>, added: seq<Edge>, version: nat)
    requires DistinctKeys(before) && DistinctKeys(added) && OneVersion(added, version)
    requires forall e :: e in before ==> e.version != version
    ensures DistinctKeys(before + added)
  {
    assert forall i :: 0 <= i < |before| ==> before[i] in before;
  }

  lemma KeysJoin(registry: seq<RegistryEntry>, front: seq<Txn>, txn: Txn)
    requires DistinctKeys(BatchEdges(registry, front)) && !HasVersion(front, txn.version)
    ensures DistinctKeys(BatchEdges(registry, front) + TxnEdges(registry, txn))
  {
    forall e | e in BatchEdges(registry, front)
      ensures e.version != txn.version
    {
      EdgeOfBatch(registry, front, e);
    }
    TxnKeysDistinct(registry, txn);
    DistinctJoin(BatchEdges(registry, front), TxnEdges(registry, txn), txn.version);
  }

  ghost predicate DistinctVersions(txns: seq<Txn>) {
    forall i, j :: 0 <= i < j < |txns| ==> txns[i].version != txns[j].version
  }

  lemma DistinctFront(txns: seq<Txn>)
    requires DistinctVersions(txns) && txns != []
    ensures DistinctVersions(txns[..|txns| - 1]) && !HasVersion(txns[..|txns| - 1], txns[|txns| - 1].version)
  {
  }

  /** In a batch of transactions with distinct versions every emitted edge, paired or synthesized,
      has its own (version, event index). */
  lemma {:induction false} EdgeKeysDistinct(registry: seq<RegistryEntry>, txns: seq<Txn>)
    requires DistinctVersions(txns)
    ensures DistinctKeys(BatchEdges(registry, txns))
  {
    if txns != [] {
      var n := |txns| - 1;
      DistinctFront(txns);
      EdgeKeysDistinct(registry, txns[..n]);
      KeysJoin(registry, txns[..n], txns[n]);
    }
  }
}

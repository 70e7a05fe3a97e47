/** What the edges and inflows of a transaction say about its events. */
module EdgeMeaning {
  import opened Prelude
  import opened EdgePairing
  import opened Extractor

  // ---------------------------------------------------------------- events

  /** Event `i` withdraws this amount from the store `s`, or deposits it there. */
  ghost predicate MovesAt(txn: Txn, i: nat, withdraw: bool, s: string, amount: real) {
    i < |txn.events| && txn.events[i].bridge.None? && txn.events[i].fa == Some(FaEvent(withdraw, s, amount))
  }

  /** The owner of a store, or the store itself when its owner is not known. */
  ghost predicate OwnedBy(txn: Txn, s: string, address: string) {
    if s in txn.owners then address == txn.owners[s] else address == s
  }

  /** A side stands for a withdraw or deposit event, seen from the owner of its store. */
  ghost predicate IsSideOf(txn: Txn, w: Side, withdraw: bool) {
    MovesAt(txn, w.eventIndex, withdraw, w.storageId, w.amount) && OwnedBy(txn, w.storageId, w.address)
  }

  /** The withdraws of a transaction are the sides of its withdraw events. */
  lemma {:induction false} WithdrawsAre(txn: Txn, n: nat, w: Side)
    requires n <= |txn.events|
    ensures w in Withdraws(txn, n) <==> w.eventIndex < n && IsSideOf(txn, w, true)
  {
    if n > 0 {
      WithdrawsAre(txn, n - 1, w);
    }
  }

  lemma {:induction false} DepositsAre(txn: Txn, n: nat, d: Side)
    requires n <= |txn.events|
    ensures d in Deposits(txn, n) <==> d.eventIndex < n && IsSideOf(txn, d, false)
  {
    if n > 0 {
      DepositsAre(txn, n - 1, d);
    }
  }

  ghost predicate SidesRise(ss: seq<Side>) {
    forall i, j :: 0 <= i < j < |ss| ==> ss[i].eventIndex < ss[j].eventIndex
  }

  /** Both come in event order. */
  lemma {:induction false} SidesInOrder(txn: Txn, n: nat)
    requires n <= |txn.events|
    ensures SidesRise(Withdraws(txn, n)) && SidesRise(Deposits(txn, n))
    ensures forall w :: w in Withdraws(txn, n) ==> w.eventIndex < n
    ensures forall d :: d in Deposits(txn, n) ==> d.eventIndex < n
  {
    if n > 0 {
      SidesInOrder(txn, n - 1);
      var ws, ds := Withdraws(txn, n - 1), Deposits(txn, n - 1);
      assert forall i :: 0 <= i < |ws| ==> ws[i] in ws;
      assert forall i :: 0 <= i < |ds| ==> ds[i] in ds;
    }
  }

  // ---------------------------------------------------------------- inflows

  /** Event `j` deposits this amount at a store of `recipient` whose asset is known to be `asset`. */
  ghost predicate Delivers(txn: Txn, j: nat, recipient: string, amount: real, asset: string) {
    exists s :: MovesAt(txn, j, false, s, amount) && OwnedBy(txn, s, recipient) && s in txn.assets && txn.assets[s] == asset
  }

  /** The asset of the first event that delivers one. */
  ghost predicate FirstDelivered(txn: Txn, recipient: string, amount: real, asset: Option<string>) {
    match asset
    case None => forall j: nat, a :: !Delivers(txn, j, recipient, amount, a)
    case Some(a) => exists j: nat :: Delivers(txn, j, recipient, amount, a) && forall h: nat, b :: h < j ==> !Delivers(txn, h, recipient, amount, b)
  }

  lemma {:induction false} ResolveFirst(txn: Txn, ds: seq<Side>, recipient: string, amount: real) returns (i: nat)
    ensures ResolveAsset(txn, ds, recipient, amount).None? ==>
              forall h :: 0 <= h < |ds| ==> !(ds[h].address == recipient && ds[h].amount == amount && ds[h].storageId in txn.assets)
    ensures ResolveAsset(txn, ds, recipient, amount).Some? ==>
              && i < |ds| && ds[i].address == recipient && ds[i].amount == amount && ds[i].storageId in txn.assets
              && ResolveAsset(txn, ds, recipient, amount) == Some(txn.assets[ds[i].storageId])
              && forall h :: 0 <= h < i ==> !(ds[h].address == recipient && ds[h].amount == amount && ds[h].storageId in txn.assets)
  {
    i := 0;
    if ds != [] && !(ds[0].address == recipient && ds[0].amount == amount && ds[0].storageId in txn.assets) {
      var j := ResolveFirst(txn, ds[1..], recipient, amount);
      assert forall h :: 0 < h < |ds| ==> ds[h] == ds[1..][h - 1];
      i := j + 1;
    }
  }

  /** The side of a deposit that delivers. */
  lemma DelivererHasSide(txn: Txn, j: nat, recipient: string, amount: real, asset: string) returns (i: nat)
    requires Delivers(txn, j, recipient, amount, asset)
    ensures var ds := Deposits(txn, |txn.events|);
            && i < |ds| && ds[i].eventIndex == j && ds[i].address == recipient && ds[i].amount == amount
            && ds[i].storageId in txn.assets && txn.assets[ds[i].storageId] == asset
  {
    var s :| MovesAt(txn, j, false, s, amount) && OwnedBy(txn, s, recipient) && s in txn.assets && txn.assets[s] == asset;
    var d, ds := Side(j, recipient, s, amount), Deposits(txn, |txn.events|);
    DepositsAre(txn, |txn.events|, d);
    i :| 0 <= i < |ds| && ds[i] == d;
  }

  lemma SideDelivers(txn: Txn, d: Side)
    requires d in Deposits(txn, |txn.events|) && d.storageId in txn.assets
    ensures Delivers(txn, d.eventIndex, d.address, d.amount, txn.assets[d.storageId])
  {
    DepositsAre(txn, |txn.events|, d);
  }

  /** An inflow's asset is that of the first deposit event to its recipient with its amount and a known asset. */
  lemma ResolvedIsFirst(txn: Txn, recipient: string, amount: real)
    ensures FirstDelivered(txn, recipient, amount, ResolveAsset(txn, Deposits(txn, |txn.events|), recipient, amount))
  {
    var ds := Deposits(txn, |txn.events|);
    var i := ResolveFirst(txn, ds, recipient, amount);
    var asset := ResolveAsset(txn, ds, recipient, amount);
    SidesInOrder(txn, |txn.events|);
    if asset.None? {
      forall j: nat, a | Delivers(txn, j, recipient, amount, a)
        ensures false
      {
        var h := DelivererHasSide(txn, j, recipient, amount, a);
      }
    } else {
      assert ds[i] in ds;
      SideDelivers(txn, ds[i]);
      forall h: nat, b | h < ds[i].eventIndex
        ensures !Delivers(txn, h, recipient, amount, b)
      {
        if Delivers(txn, h, recipient, amount, b) {
          var g := DelivererHasSide(txn, h, recipient, amount, b);
        }
      }
    }
  }

  /** The inflows of a transaction are its bridge events, each with its resolved asset. */
  lemma {:induction false} InflowsAre(txn: Txn, n: nat, bi: Inflow)
    requires n <= |txn.events|
    ensures bi in Inflows(txn, n) <==>
            && bi.version == txn.version && bi.eventIndex < n
            && txn.events[bi.eventIndex].bridge == Some(BridgeEvent(bi.bridgeName, bi.recipient, bi.evmSource, bi.amount))
            && bi.asset == ResolveAsset(txn, Deposits(txn, |txn.events|), bi.recipient, bi.amount)
  {
    if n > 0 {
      InflowsAre(txn, n - 1, bi);
    }
  }

  /** They come in event order. */
  lemma {:induction false} InflowsInOrder(txn: Txn, n: nat)
    requires n <= |txn.events|
    ensures forall i, j :: 0 <= i < j < |Inflows(txn, n)| ==> Inflows(txn, n)[i].eventIndex < Inflows(txn, n)[j].eventIndex
    ensures forall bi :: bi in Inflows(txn, n) ==> bi.eventIndex < n
  {
    if n > 0 {
      InflowsInOrder(txn, n - 1);
      var bis := Inflows(txn, n - 1);
      assert forall i :: 0 <= i < |bis| ==> bis[i] in bis;
    }
  }

  // ---------------------------------------------------------------- paired edges

  /** Event `i` is a bridge event for this recipient and amount. */
  ghost predicate BridgesAt(txn: Txn, i: nat, recipient: string, amount: real) {
    && i < |txn.events| && txn.events[i].bridge.Some?
    && txn.events[i].bridge.value.recipient == recipient && txn.events[i].bridge.value.amount == amount
  }

  /** The first such event, if there is one, names the bridge. */
  ghost predicate FlaggedBy(txn: Txn, recipient: string, amount: real, isBridge: bool, name: Option<string>) {
    if isBridge then
      exists i: nat :: BridgesAt(txn, i, recipient, amount) && name == Some(txn.events[i].bridge.value.bridgeName)
                       && forall h: nat :: h < i ==> !BridgesAt(txn, h, recipient, amount)
    else name == None && forall i: nat :: !BridgesAt(txn, i, recipient, amount)
  }

  lemma {:induction false} FindFirst(inflows: seq<Inflow>, recipient: string, amount: real) returns (i: nat)
    ensures FindInflow(inflows, recipient, amount).None? ==>
              forall h :: 0 <= h < |inflows| ==> !(inflows[h].recipient == recipient && inflows[h].amount == amount)
    ensures FindInflow(inflows, recipient, amount).Some? ==>
              && i < |inflows| && inflows[i].recipient == recipient && inflows[i].amount == amount
              && FindInflow(inflows, recipient, amount) == Some(inflows[i])
              && forall h :: 0 <= h < i ==> !(inflows[h].recipient == recipient && inflows[h].amount == amount)
  {
    i := 0;
    if inflows != [] && !(inflows[0].recipient == recipient && inflows[0].amount == amount) {
      var j := FindFirst(inflows[1..], recipient, amount);
      assert forall h :: 0 < h < |inflows| ==> inflows[h] == inflows[1..][h - 1];
      i := j + 1;
    }
  }

  lemma BridgeHasInflow(txn: Txn, e: nat, recipient: string, amount: real) returns (i: nat)
    requires BridgesAt(txn, e, recipient, amount)
    ensures var bis := Inflows(txn, |txn.events|);
            i < |bis| && bis[i].eventIndex == e && bis[i].recipient == recipient && bis[i].amount == amount
  {
    var b, bis := txn.events[e].bridge.value, Inflows(txn, |txn.events|);
    var bi := InflowOf(txn, e, b);
    InflowsAre(txn, |txn.events|, bi);
    i :| 0 <= i < |bis| && bis[i] == bi;
  }

  lemma FlagIsFirst(txn: Txn, recipient: string, amount: real)
    ensures var f := FindInflow(Inflows(txn, |txn.events|), recipient, amount);
            FlaggedBy(txn, recipient, amount, f.Some?, if f.Some? then Some(f.value.bridgeName) else None)
  {
    var bis := Inflows(txn, |txn.events|);
    var i := FindFirst(bis, recipient, amount);
    InflowsInOrder(txn, |txn.events|);
    if FindInflow(bis, recipient, amount).Some? {
      assert bis[i] in bis;
      InflowsAre(txn, |txn.events|, bis[i]);
      forall h: nat | h < bis[i].eventIndex
        ensures !BridgesAt(txn, h, recipient, amount)
      {
        if BridgesAt(txn, h, recipient, amount) {
          var g := BridgeHasInflow(txn, h, recipient, amount);
        }
      }
    } else {
      forall e: nat
        ensures !BridgesAt(txn, e, recipient, amount)
      {
        if BridgesAt(txn, e, recipient, amount) {
          var g := BridgeHasInflow(txn, e, recipient, amount);
        }
      }
    }
  }

  /** An edge joins the withdraw event of its index, out of the store `s`, to a deposit event of the same
      amount into the store `d` of another owner. */
  ghost predicate Joins(txn: Txn, e: Edge, s: string, j: nat, d: string) {
    && e.version == txn.version
    && MovesAt(txn, e.eventIndex, true, s, e.amount) && OwnedBy(txn, s, e.from)
    && MovesAt(txn, j, false, d, e.amount) && OwnedBy(txn, d, e.to)
    && e.from != e.to
    && e.asset == (if s in txn.assets then Some(txn.assets[s]) else if d in txn.assets then Some(txn.assets[d]) else None)
    && FlaggedBy(txn, e.to, e.amount, e.isBridge, e.bridgeName)
  }

  lemma PairJoins(txn: Txn, w: Side, d: Side)
    requires w in Withdraws(txn, |txn.events|) && d in Deposits(txn, |txn.events|)
    requires d.amount == w.amount && d.address != w.address
    ensures Joins(txn, PairedEdge(txn, w, d, Inflows(txn, |txn.events|)), w.storageId, d.eventIndex, d.storageId)
  {
    WithdrawsAre(txn, |txn.events|, w);
    DepositsAre(txn, |txn.events|, d);
    FlagIsFirst(txn, d.address, d.amount);
  }

  lemma {:induction false} PairedOrigin(txn: Txn, ws: seq<Side>, ds: seq<Side>, p: Pairing, inflows: seq<Inflow>, n: nat, e: Edge)
    requires n <= |ws| == |p|
    ensures e in PairedEdges(txn, ws, ds, p, inflows, n) <==>
            exists i :: 0 <= i < n && p[i].Some? && p[i].value < |ds| && e == PairedEdge(txn, ws[i], ds[p[i].value], inflows)
  {
    if n > 0 {
      PairedOrigin(txn, ws, ds, p, inflows, n - 1, e);
    }
  }

  /** Every paired edge joins a withdraw and a deposit event of its transaction. */
  lemma PairedEdgesJoin(txn: Txn, e: Edge) returns (s: string, j: nat, d: string)
    requires e in TxnPaired(txn)
    ensures txn.indexed && Joins(txn, e, s, j, d)
  {
    var ws, ds := Withdraws(txn, |txn.events|), Deposits(txn, |txn.events|);
    PairedOrigin(txn, ws, ds, Pair(ws, ds), TxnInflows(txn), |ws|, e);
    var i :| 0 <= i < |ws| && Pair(ws, ds)[i].Some? && Pair(ws, ds)[i].value < |ds|
      && e == PairedEdge(txn, ws[i], ds[Pair(ws, ds)[i].value], TxnInflows(txn));
    PairIsGreedy(ws, ds);
    var from, to := ws[i], ds[Pair(ws, ds)[i].value];
    PairJoins(txn, from, to);
    s, j, d := from.storageId, to.eventIndex, to.storageId;
  }

  /** A withdraw event has an edge exactly when its side is paired. */
  lemma EdgeForPair(txn: Txn, i: nat)
    requires txn.indexed && i < |Withdraws(txn, |txn.events|)|
    ensures var ws, ds := Withdraws(txn, |txn.events|), Deposits(txn, |txn.events|);
            Pair(ws, ds)[i].Some? <==> exists e :: e in TxnPaired(txn) && e.eventIndex == ws[i].eventIndex
  {
    var ws, ds := Withdraws(txn, |txn.events|), Deposits(txn, |txn.events|);
    var p := Pair(ws, ds);
    PairIsGreedy(ws, ds);
    SidesInOrder(txn, |txn.events|);
    if p[i].Some? {
      var e := PairedEdge(txn, ws[i], ds[p[i].value], TxnInflows(txn));
      PairedOrigin(txn, ws, ds, p, TxnInflows(txn), |ws|, e);
      assert e.eventIndex == ws[i].eventIndex;
    }
    if e :| e in TxnPaired(txn) && e.eventIndex == ws[i].eventIndex {
      PairedOrigin(txn, ws, ds, p, TxnInflows(txn), |ws|, e);
      var h :| 0 <= h < |ws| && p[h].Some? && p[h].value < |ds| && e == PairedEdge(txn, ws[h], ds[p[h].value], TxnInflows(txn));
      assert ws[h].eventIndex == ws[i].eventIndex;
      assert h == i;
    }
  }

  // ---------------------------------------------------------------- head edges

  /** The module address of the first entry for the bridge, or a made-up one when there is none. */
  ghost predicate IsHeadOf(registry: seq<RegistryEntry>, name: string, address: string) {
    || ((forall i :: 0 <= i < |registry| ==> registry[i].bridgeName != name) && address == "bridge::" + name)
    || (exists i :: 0 <= i < |registry| && registry[i].bridgeName == name && registry[i].moduleAddress == address
                    && forall h :: 0 <= h < i ==> registry[h].bridgeName != name)
  }

  lemma {:induction false} HeadAddressIsHead(registry: seq<RegistryEntry>, name: string)
    ensures IsHeadOf(registry, name, HeadAddress(registry, name))
  {
    if registry != [] && registry[0].bridgeName != name {
      var rest := registry[1..];
      HeadAddressIsHead(rest, name);
      assert forall i :: 0 < i < |registry| ==> registry[i] == rest[i - 1];
      if i :| 0 <= i < |rest| && rest[i].bridgeName == name && rest[i].moduleAddress == HeadAddress(rest, name)
              && forall h :: 0 <= h < i ==> rest[h].bridgeName != name {
        assert registry[i + 1] == rest[i];
      }
    }
  }

  /** After the paired edges comes one edge per bridge event, from the bridge to the recipient. */
  lemma HeadEdgeIsBridge(registry: seq<RegistryEntry>, txn: Txn, i: nat)
    requires i < |TxnInflows(txn)|
    ensures |TxnEdges(registry, txn)| == |TxnPaired(txn)| + |TxnInflows(txn)|
    ensures var e, bi := TxnEdges(registry, txn)[|TxnPaired(txn)| + i], TxnInflows(txn)[i];
            && e.version == txn.version && e.eventIndex == bi.eventIndex < |txn.events|
            && txn.events[e.eventIndex].bridge == Some(BridgeEvent(bi.bridgeName, e.to, bi.evmSource, e.amount))
            && e.isBridge && e.bridgeName == Some(bi.bridgeName)
            && IsHeadOf(registry, bi.bridgeName, e.from) && FirstDelivered(txn, e.to, e.amount, e.asset)
  {
    var bi := TxnInflows(txn)[i];
    assert bi in TxnInflows(txn);
    InflowsAre(txn, |txn.events|, bi);
    HeadAddressIsHead(registry, bi.bridgeName);
    ResolvedIsFirst(txn, bi.recipient, bi.amount);
  }
}

/** Transactions that reach the rollup more than once. */
module Replays {
  import opened Prelude
  import opened EdgePairing
  import opened Extractor
  import opened Rollup
  import opened Storer
  import opened BatchIndependence
  import opened Conservation

  /** The deliveries without those of transactions delivered before, and those. */
  function Firsts(txns: seq<Txn>): (r: seq<Txn>) {
    if txns == [] then []
    else
      var front, last := txns[..|txns| - 1], txns[|txns| - 1];
      Firsts(front) + if last in front then [] else [last]
  }

  function Repeats(txns: seq<Txn>): (r: seq<Txn>) {
    if txns == [] then []
    else
      var front, last := txns[..|txns| - 1], txns[|txns| - 1];
      Repeats(front) + if last in front then [last] else []
  }

  /** The first deliveries name every delivered transaction, each once. */
  lemma {:induction false} FirstsAreDistinct(txns: seq<Txn>)
    ensures forall t :: t in Firsts(txns) <==> t in txns
    ensures forall i, j :: 0 <= i < j < |Firsts(txns)| ==> Firsts(txns)[i] != Firsts(txns)[j]
  {
    if txns != [] {
      var n := |txns| - 1;
      FirstsAreDistinct(txns[..n]);
      assert txns == txns[..n] + [txns[n]];
    }
  }

  lemma TxnSumOne(txns: seq<Txn>, t: Txn, part: Txn -> real)
    ensures TxnSum(txns + [t], part) == TxnSum(txns, part) + part(t)
  {
    assert (txns + [t])[..|txns|] == txns;
  }

  lemma {:induction false} SplitSum(txns: seq<Txn>, part: Txn -> real)
    ensures TxnSum(txns, part) == TxnSum(Firsts(txns), part) + TxnSum(Repeats(txns), part)
  {
    if txns != [] {
      var front, last := txns[..|txns| - 1], txns[|txns| - 1];
      SplitSum(front, part);
      if last in front {
        assert Firsts(txns) == Firsts(front);
        TxnSumOne(Repeats(front), last, part);
      } else {
        assert Repeats(txns) == Repeats(front);
        TxnSumOne(Firsts(front), last, part);
      }
    }
  }

  lemma {:induction false} RepeatsAreDelivered(txns: seq<Txn>)
    ensures forall t :: t in Repeats(txns) ==> t in txns
  {
    if txns != [] {
      var n := |txns| - 1;
      RepeatsAreDelivered(txns[..n]);
      assert txns == txns[..n] + [txns[n]];
    }
  }

  // ---------------------------------------------------------------- what a repeat adds

  ghost predicate UnsignedAmounts(txn: Txn) {
    UnsignedEvents(txn) && forall i :: 0 <= i < |txn.events| && txn.events[i].bridge.Some? ==> txn.events[i].bridge.value.amount >= 0.0
  }

  /** The transaction bridges a positive amount with a known source into this address and asset. */
  ghost predicate Bridges(registry: seq<RegistryEntry>, txn: Txn, addr: string, asset: string) {
    exists e :: e in TxnEdges(registry, txn) && BridgePart(TxnInflows(txn), addr, asset)(e) > 0.0
  }

  lemma {:induction false} InflowAmounts(txn: Txn, n: nat)
    requires n <= |txn.events| && UnsignedAmounts(txn)
    ensures forall bi :: bi in Inflows(txn, n) ==> bi.amount >= 0.0
  {
    if n > 0 {
      InflowAmounts(txn, n - 1);
    }
  }

  lemma EdgeAmounts(registry: seq<RegistryEntry>, txn: Txn)
    requires UnsignedAmounts(txn)
    ensures forall e :: e in TxnEdges(registry, txn) ==> e.amount >= 0.0
  {
    if txn.indexed {
      var ws, ds := Withdraws(txn, |txn.events|), Deposits(txn, |txn.events|);
      WithdrawAmounts(txn, |txn.events|);
      PairedAmounts(txn, ws, ds, Pair(ws, ds), TxnInflows(txn), |ws|);
      InflowAmounts(txn, |txn.events|);
    }
    var heads := HeadEdges(registry, TxnInflows(txn));
    forall e | e in heads
      ensures e.amount >= 0.0
    {
      var i :| 0 <= i < |heads| && heads[i] == e;
      assert TxnInflows(txn)[i] in TxnInflows(txn);
    }
  }

  lemma BridgedIsUnsigned(registry: seq<RegistryEntry>, txn: Txn, addr: string, asset: string)
    requires UnsignedAmounts(txn)
    ensures BridgeTotal(registry, addr, asset)(txn) >= 0.0
    ensures BridgeTotal(registry, addr, asset)(txn) == 0.0 <==> !Bridges(registry, txn, addr, asset)
  {
    EdgeAmounts(registry, txn);
    EdgeSumZero(TxnEdges(registry, txn), BridgePart(TxnInflows(txn), addr, asset));
  }

  /** With repeats, the total at an address holds the sum over the delivered transactions, each counted
      once, if and only if no repeated one bridges a positive amount there; it never holds less. */
  lemma RepeatsCountExactly(registry: seq<RegistryEntry>, batches: seq<seq<Txn>>, addr: string, asset: string)
    requires EachIncreasing(batches) && forall t :: t in Flatten(batches) ==> UnsignedAmounts(t)
    ensures var total := Total(StoreBatches(registry, map[], batches), addr, asset);
            var once := TxnSum(Firsts(Flatten(batches)), BridgeTotal(registry, addr, asset));
            total >= once && (total == once <==> forall t :: t in Repeats(Flatten(batches)) ==> !Bridges(registry, t, addr, asset))
  {
    var txns, part := Flatten(batches), BridgeTotal(registry, addr, asset);
    TotalIsBridged(registry, batches, addr, asset);
    SplitSum(txns, part);
    RepeatsAreDelivered(txns);
    forall t | t in Repeats(txns)
      ensures part(t) >= 0.0 && (part(t) == 0.0 <==> !Bridges(registry, t, addr, asset))
    {
      BridgedIsUnsigned(registry, t, addr, asset);
    }
    TxnSumZero(Repeats(txns), part);
  }

  /** Delivering one transaction twice doubles what it adds to a row. */
  lemma TwiceIsDouble(registry: seq<RegistryEntry>, txn: Txn, k: Key)
    ensures FundOf(StoreBatches(registry, map[], [[txn], [txn]]), k) == 2.0 * FundOf(StoreBatches(registry, map[], [[txn]]), k)
  {
    var one: seq<seq<Txn>>, two: seq<seq<Txn>> := [[txn]], [[txn], [txn]];
    FlattenAppend([], [txn]);
    FlattenAppend(one, [txn]);
    assert [] + one == one && one + [[txn]] == two && Flatten(one) == [txn] && Flatten(two) == [txn] + [txn];
    assert EachIncreasing(one) && EachIncreasing(two);
    FundIsHeadsAndRecounts(registry, one, k);
    FundIsHeadsAndRecounts(registry, two, k);
    SingleSum(txn, HeadCredit(registry, k));
    SingleSum(txn, CountedAgain(k));
    TxnSumOne([txn], txn, HeadCredit(registry, k));
    TxnSumOne([txn], txn, CountedAgain(k));
  }

  /** An instance: the delivery recorded as 10 stands at 20 after its replay. */
  lemma DeliveryReplayed()
    ensures FundOf(StoreBatches([], map[], [[DELIVERY]]), ROW) == 10.0
    ensures FundOf(StoreBatches([], map[], [[DELIVERY], [DELIVERY]]), ROW) == 20.0
  {
    DeliveryCountsTwice();
    TwiceIsDouble([], DELIVERY, ROW);
  }
}

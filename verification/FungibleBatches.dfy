/** Batches of fungible balances: a batch is collapsed in memory to the last balance of each storage
    id and side, and the two sides are then upserted concurrently. */
module FungibleBatches {
  import opened Prelude
  import opened FungibleBalances

  datatype Entry = Entry(storageId: string, balance: Balance)

  /** The last balance of a side. */
  function LastOn(ws: seq<Balance>, side: Standard): (r: Option<Balance>) {
    if ws == [] then None
    else if ws[|ws| - 1].standard == side then Some(ws[|ws| - 1])
    else LastOn(ws[..|ws| - 1], side)
  }

  /** Its meaning: there is none exactly when the side has none, else it is the one behind which the side
      has none. */
  lemma {:induction false} LastOnIsLast(ws: seq<Balance>, side: Standard) returns (i: nat)
    ensures LastOn(ws, side).None? ==> forall j :: 0 <= j < |ws| ==> ws[j].standard != side
    ensures LastOn(ws, side).Some? ==> i < |ws| && ws[i].standard == side && LastOn(ws, side) == Some(ws[i])
    ensures LastOn(ws, side).Some? ==> forall j :: i < j < |ws| ==> ws[j].standard != side
  {
    i := 0;
    if ws != [] {
      i := |ws| - 1;
      if ws[i].standard != side {
        var front := ws[..|ws| - 1];
        i := LastOnIsLast(front, side);
        assert forall j :: 0 <= j < |front| ==> front[j] == ws[j];
      }
    }
  }

  /** Entry `i` is the last of its storage id and side. */
  ghost predicate LastEntry(entries: seq<Entry>, i: int, id: string, side: Standard) {
    && 0 <= i < |entries| && entries[i].storageId == id && entries[i].balance.standard == side
    && forall j :: i < j < |entries| ==> entries[j].storageId != id || entries[j].balance.standard != side
  }

  /** A map holds exactly the last balance of each storage id that the side has. */
  ghost predicate Collapses(rows: map<string, Balance>, entries: seq<Entry>, side: Standard) {
    && (forall i :: 0 <= i < |entries| && entries[i].balance.standard == side ==> entries[i].storageId in rows)
    && (forall id :: id in rows ==> exists i :: LastEntry(entries, i, id, side) && rows[id] == entries[i].balance)
  }

  lemma CollapseOne(rows: map<string, Balance>, entries: seq<Entry>, side: Standard, e: Entry)
    requires Collapses(rows, entries, side)
    ensures Collapses(if e.balance.standard == side then rows[e.storageId := e.balance] else rows, entries + [e], side)
  {
    var rows' := if e.balance.standard == side then rows[e.storageId := e.balance] else rows;
    var all, n := entries + [e], |entries|;
    assert all[n] == e;
    forall id | id in rows'
      ensures exists i :: LastEntry(all, i, id, side) && rows'[id] == all[i].balance
    {
      if id == e.storageId && e.balance.standard == side {
        assert LastEntry(all, n, id, side);
      } else {
        var i :| LastEntry(entries, i, id, side) && rows[id] == entries[i].balance;
        assert LastEntry(all, i, id, side) && all[i] == entries[i];
      }
    }
  }

  /** Collapses a batch to the last balance of each storage id, separately for the two sides. */
  method FromFungibleAssetBalances(entries: seq<Entry>) returns (v1: map<string, Balance>, v2: map<string, Balance>)
    ensures Collapses(v1, entries, V1) && Collapses(v2, entries, V2)
  {
    v1, v2 := map[], map[];
    for i := 0 to |entries|
      invariant Collapses(v1, entries[..i], V1) && Collapses(v2, entries[..i], V2)
    {
      var e := entries[i];
      CollapseOne(v1, entries[..i], V1, e);
      CollapseOne(v2, entries[..i], V2, e);
      assert entries[..i] + [e] == entries[..i + 1];
      match e.balance.standard
      case V1 => v1 := v1[e.storageId := e.balance];
      case V2 => v2 := v2[e.storageId := e.balance];
    }
    assert entries[..|entries|] == entries;
  }

  // ---------------------------------------------------------------- deliveries of one storage id

  /** `chain(v)` are the balances that transaction `v` yields for the storage id. */
  ghost predicate Dated(chain: nat -> seq<Balance>) {
    forall v: nat, b :: b in chain(v) ==> b.version == v
  }

  /** A batch of transactions; `v1First` says which of its two upserts comes in first. */
  datatype Delivery = Delivery(versions: seq<nat>, v1First: bool)

  ghost predicate Rising(versions: seq<nat>) {
    forall i, j :: 0 <= i < j < |versions| ==> versions[i] < versions[j]
  }

  function Balances(chain: nat -> seq<Balance>, versions: seq<nat>): (r: seq<Balance>) {
    if versions == [] then [] else Balances(chain, versions[..|versions| - 1]) + chain(versions[|versions| - 1])
  }

  function AsWrite(b: Option<Balance>): (r: seq<Balance>) {
    if b.Some? then [b.value] else []
  }

  /** The upserts of a batch, at most one of each side. */
  function Writes(chain: nat -> seq<Balance>, d: Delivery): (r: seq<Balance>) {
    var ws := Balances(chain, d.versions);
    if d.v1First then AsWrite(LastOn(ws, V1)) + AsWrite(LastOn(ws, V2)) else AsWrite(LastOn(ws, V2)) + AsWrite(LastOn(ws, V1))
  }

  function RunWrites(chain: nat -> seq<Balance>, ds: seq<Delivery>): (r: seq<Balance>) {
    if ds == [] then [] else RunWrites(chain, ds[..|ds| - 1]) + Writes(chain, ds[|ds| - 1])
  }

  ghost function Versions(versions: seq<nat>): (r: set<nat>) {
    set v | v in versions
  }

  ghost function Seen(ds: seq<Delivery>): (r: set<nat>) {
    if ds == [] then {} else Seen(ds[..|ds| - 1]) + Versions(ds[|ds| - 1].versions)
  }

  function AsHalf(b: Option<Balance>): (r: Option<Half>) {
    if b.Some? then Some(HalfFrom(b.value)) else None
  }

  /** `h` is the last balance of the side at the newest of the versions `seen` that has one. */
  ghost predicate LatestHalf(chain: nat -> seq<Balance>, seen: set<nat>, side: Standard, h: Option<Half>) {
    match h
    case None => forall v :: v in seen ==> LastOn(chain(v), side).None?
    case Some(x) =>
      && x.version in seen && AsHalf(LastOn(chain(x.version), side)) == h
      && forall v :: v in seen && v > x.version ==> LastOn(chain(v), side).None?
  }

  /** The guarded upsert of a half. */
  function Joined(stored: Option<Half>, h: Option<Half>): (r: Option<Half>) {
    if h.Some? && Admits(stored, h) then h else stored
  }

  lemma {:induction false} LastOnIsOn(ws: seq<Balance>, side: Standard)
    ensures LastOn(ws, side).Some? ==> LastOn(ws, side).value in ws && LastOn(ws, side).value.standard == side
  {
    if ws != [] {
      LastOnIsOn(ws[..|ws| - 1], side);
    }
  }

  lemma {:induction false} LastOnAppend(a: seq<Balance>, b: seq<Balance>, side: Standard)
    ensures LastOn(a + b, side) == if LastOn(b, side).Some? then LastOn(b, side) else LastOn(a, side)
  {
    if b == [] {
      assert a + b == a;
    } else {
      assert (a + b)[..|a + b| - 1] == a + b[..|b| - 1];
      LastOnAppend(a, b[..|b| - 1], side);
    }
  }

  lemma LatestJoins(chain: nat -> seq<Balance>, a: set<nat>, b: set<nat>, side: Standard, x: Option<Half>, y: Option<Half>)
    requires LatestHalf(chain, a, side, x) && LatestHalf(chain, b, side, y)
    ensures LatestHalf(chain, a + b, side, Joined(x, y))
  {
  }

  lemma LatestUnique(chain: nat -> seq<Balance>, seen: set<nat>, side: Standard, x: Option<Half>, y: Option<Half>)
    requires LatestHalf(chain, seen, side, x) && LatestHalf(chain, seen, side, y)
    ensures x == y
  {
  }

  lemma OneIsLatest(chain: nat -> seq<Balance>, v: nat, side: Standard)
    requires Dated(chain)
    ensures LatestHalf(chain, {v}, side, AsHalf(LastOn(chain(v), side)))
  {
    LastOnIsOn(chain(v), side);
  }

  /** A batch collapses to the last balance of its newest version that has one. */
  lemma {:induction false} BatchIsLatest(chain: nat -> seq<Balance>, versions: seq<nat>, side: Standard)
    requires Dated(chain) && Rising(versions)
    ensures LatestHalf(chain, Versions(versions), side, AsHalf(LastOn(Balances(chain, versions), side)))
  {
    if versions != [] {
      var front, v := versions[..|versions| - 1], versions[|versions| - 1];
      BatchIsLatest(chain, front, side);
      OneIsLatest(chain, v, side);
      var x, y := AsHalf(LastOn(Balances(chain, front), side)), AsHalf(LastOn(chain(v), side));
      LatestJoins(chain, Versions(front), {v}, side, x, y);
      LastOnAppend(Balances(chain, front), chain(v), side);
      assert versions == front + [v] && Versions(versions) == Versions(front) + {v};
      assert forall u :: u in front ==> u < v;
    }
  }

  lemma AfterOne(ws: seq<Balance>, b: Option<Balance>, side: Standard)
    ensures HalfOf(After(ws + AsWrite(b)), side) ==
            if b.Some? && b.value.standard == side then Joined(HalfOf(After(ws), side), AsHalf(b)) else HalfOf(After(ws), side)
  {
    if b.Some? {
      assert (ws + [b.value])[..|ws|] == ws;
      HalfStep(After(ws), b.value, side);
    } else {
      assert ws + [] == ws;
    }
  }

  /** Whichever of a batch's upserts comes in first, each half meets its own side's. */
  lemma AfterBatch(chain: nat -> seq<Balance>, ws: seq<Balance>, d: Delivery, side: Standard)
    ensures HalfOf(After(ws + Writes(chain, d)), side) == Joined(HalfOf(After(ws), side), AsHalf(LastOn(Balances(chain, d.versions), side)))
  {
    var all := Balances(chain, d.versions);
    var first, second := if d.v1First then V1 else V2, if d.v1First then V2 else V1;
    LastOnIsOn(all, V1);
    LastOnIsOn(all, V2);
    AfterOne(ws, LastOn(all, first), side);
    AfterOne(ws + AsWrite(LastOn(all, first)), LastOn(all, second), side);
    assert ws + Writes(chain, d) == ws + AsWrite(LastOn(all, first)) + AsWrite(LastOn(all, second));
  }

  /** After any batches, overlapping, repeated or out of order, and with the two upserts of each in
      either order, each half is the last balance of its side at the newest version delivered. */
  lemma {:induction false} HalvesAreLatest(chain: nat -> seq<Balance>, ds: seq<Delivery>, side: Standard)
    requires Dated(chain) && forall d :: d in ds ==> Rising(d.versions)
    ensures LatestHalf(chain, Seen(ds), side, HalfOf(After(RunWrites(chain, ds)), side))
  {
    if ds != [] {
      var front, d := ds[..|ds| - 1], ds[|ds| - 1];
      HalvesAreLatest(chain, front, side);
      assert d in ds;
      BatchIsLatest(chain, d.versions, side);
      AfterBatch(chain, RunWrites(chain, front), d, side);
      LatestJoins(chain, Seen(front), Versions(d.versions), side, HalfOf(After(RunWrites(chain, front)), side),
                  AsHalf(LastOn(Balances(chain, d.versions), side)));
    }
  }

  /** So deliveries of the same versions leave the same halves, however they are cut and ordered. */
  lemma BatchingDoesNotMatter(chain: nat -> seq<Balance>, a: seq<Delivery>, b: seq<Delivery>, side: Standard)
    requires Dated(chain) && (forall d :: d in a + b ==> Rising(d.versions)) && Seen(a) == Seen(b)
    ensures HalfOf(After(RunWrites(chain, a)), side) == HalfOf(After(RunWrites(chain, b)), side)
  {
    assert forall d :: d in a || d in b ==> d in a + b;
    HalvesAreLatest(chain, a, side);
    HalvesAreLatest(chain, b, side);
    LatestUnique(chain, Seen(a), side, HalfOf(After(RunWrites(chain, a)), side), HalfOf(After(RunWrites(chain, b)), side));
  }
}

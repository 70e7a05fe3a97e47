/** The current fungible balance of one storage id: a row with a v1 half and a v2 half, written by
    two upserts that run concurrently and in any order. */
module FungibleBalances {
  import opened Prelude

  datatype Standard = V1 | V2

  /** A balance as read from a transaction; `pairedCoin` is the v1 asset type known for a v2 asset. */
  datatype Balance = Balance(standard: Standard, owner: string, assetType: string, pairedCoin: Option<string>,
                             isPrimary: bool, isFrozen: bool, amount: real, version: nat, timestamp: int)

  datatype Half = Half(amount: real, version: nat, timestamp: int)

  /** The current row.  The amount, version and timestamp columns of a half are set or null together. */
  datatype Row = Row(owner: string, assetV1: Option<string>, assetV2: Option<string>, isPrimary: bool, isFrozen: bool,
                     v1: Option<Half>, v2: Option<Half>)

  function FromBalance(b: Balance): (r: Row) {
    var half := Half(b.amount, b.version, b.timestamp);
    match b.standard
    case V1 => Row(b.owner, Some(b.assetType), None, true, b.isFrozen, Some(half), None)
    case V2 => Row(b.owner, b.pairedCoin, Some(b.assetType), b.isPrimary, b.isFrozen, None, Some(half))
  }

  function Coalesce(a: Option<string>, b: Option<string>): (r: Option<string>) {
    if a.Some? then a else b
  }

  /** A version guard: null, or not newer than the incoming one. */
  predicate Admits(stored: Option<Half>, incoming: Option<Half>) {
    stored.None? || (incoming.Some? && stored.value.version <= incoming.value.version)
  }

  /** The two upserts, on the row of one storage id. */
  function Upserted(stored: Option<Row>, b: Balance): (r: Row) {
    var x := FromBalance(b);
    match stored
    case None => x
    case Some(s) =>
      match b.standard
      case V1 =>
        if !Admits(s.v1, x.v1) then s
        else s.(owner := x.owner, assetV1 := x.assetV1, isFrozen := x.isFrozen, v1 := x.v1)
      case V2 =>
        if !Admits(s.v2, x.v2) then s
        else s.(owner := x.owner, assetV1 := Coalesce(x.assetV1, s.assetV1), assetV2 := x.assetV2,
                isPrimary := x.isPrimary, isFrozen := x.isFrozen, v2 := x.v2)
  }

  class BalanceStore {
    var rows: map<string, Row>

    constructor ()
      ensures rows == map[]
    {
      rows := map[];
    }

    method InsertV1(storageId: string, b: Balance)
      requires b.standard == V1
      modifies this
      ensures rows == old(rows)[storageId := Upserted(if storageId in old(rows) then Some(old(rows)[storageId]) else None, b)]
    {
      var x := FromBalance(b);
      if storageId !in rows {
        rows := rows[storageId := x];
      } else if rows[storageId].v1.None? || rows[storageId].v1.value.version <= b.version {
        rows := rows[storageId := rows[storageId].(owner := x.owner, assetV1 := x.assetV1, isFrozen := x.isFrozen, v1 := x.v1)];
      }
    }

    method InsertV2(storageId: string, b: Balance)
      requires b.standard == V2
      modifies this
      ensures rows == old(rows)[storageId := Upserted(if storageId in old(rows) then Some(old(rows)[storageId]) else None, b)]
    {
      var x := FromBalance(b);
      if storageId !in rows {
        rows := rows[storageId := x];
      } else if rows[storageId].v2.None? || rows[storageId].v2.value.version <= b.version {
        var s := rows[storageId];
        rows := rows[storageId := s.(owner := x.owner, assetV1 := if x.assetV1.Some? then x.assetV1 else s.assetV1, assetV2 := x.assetV2,
                                     isPrimary := x.isPrimary, isFrozen := x.isFrozen, v2 := x.v2)];
      }
    }
  }

  // ---------------------------------------------------------------- whole histories of one row

  function After(writes: seq<Balance>): (r: Option<Row>) {
    if writes == [] then None else Some(Upserted(After(writes[..|writes| - 1]), writes[|writes| - 1]))
  }

  function HalfOf(row: Option<Row>, side: Standard): (r: Option<Half>) {
    if row.None? then None else if side == V1 then row.value.v1 else row.value.v2
  }

  function HalfFrom(b: Balance): (r: Half) {
    Half(b.amount, b.version, b.timestamp)
  }

  /** A write changes only its own side's half, and only when its guard admits it. */
  lemma HalfStep(before: Option<Row>, w: Balance, side: Standard)
    ensures HalfOf(Some(Upserted(before, w)), side) ==
            if w.standard == side && Admits(HalfOf(before, side), Some(HalfFrom(w))) then Some(HalfFrom(w)) else HalfOf(before, side)
  {
  }

  /** Write `i` is of this side, and no write of this side has a newer version, nor a later arrival
      the same one. */
  ghost predicate Decides(writes: seq<Balance>, side: Standard, i: int) {
    && 0 <= i < |writes| && writes[i].standard == side
    && forall j :: 0 <= j < |writes| && writes[j].standard == side ==> writes[j].version <= writes[i].version && (j > i ==> writes[j].version < writes[i].version)
  }

  /** Under any interleaving, reordering or replay of v1 and v2 writes, each half is the one of the
      highest-version write of its own side, and is null only if that side never wrote. */
  lemma {:induction false} HalfIsHighestVersion(writes: seq<Balance>, side: Standard) returns (i: int)
    ensures HalfOf(After(writes), side).None? <==> forall j :: 0 <= j < |writes| ==> writes[j].standard != side
    ensures HalfOf(After(writes), side).Some? ==> Decides(writes, side, i) && HalfOf(After(writes), side) == Some(HalfFrom(writes[i]))
  {
    i := 0;
    if writes != [] {
      var n := |writes| - 1;
      i := HalfIsHighestVersion(writes[..n], side);
      assert forall j :: 0 <= j < n ==> writes[..n][j] == writes[j];
      HalfStep(After(writes[..n]), writes[n], side);
      if writes[n].standard == side && Admits(HalfOf(After(writes[..n]), side), Some(HalfFrom(writes[n]))) {
        i := n;
      }
    }
  }

  /** The writes of one side carry one balance per version. */
  ghost predicate OnePerVersion(writes: seq<Balance>, side: Standard) {
    forall v, w :: v in writes && w in writes && v.standard == side && w.standard == side && v.version == w.version ==> v == w
  }

  /** The deciding write has the highest version among all writes of its side. */
  lemma DecidesIsHighest(writes: seq<Balance>, side: Standard, i: int, w: Balance)
    requires Decides(writes, side, i) && w in writes && w.standard == side
    ensures w.version <= writes[i].version
  {
  }

  /** So arrival order and replays do not matter to a half. */
  lemma HalvesConverge(a: seq<Balance>, b: seq<Balance>, side: Standard)
    requires OnePerVersion(a, side)
    requires forall w: Balance :: w.standard == side ==> (w in a <==> w in b)
    ensures HalfOf(After(a), side) == HalfOf(After(b), side)
  {
    var i := HalfIsHighestVersion(a, side);
    var j := HalfIsHighestVersion(b, side);
    if HalfOf(After(a), side).Some? {
      assert a[i] in b;
      assert HalfOf(After(b), side).Some?;
      assert b[j] in a;
      DecidesIsHighest(a, side, i, b[j]);
      DecidesIsHighest(b, side, j, a[i]);
    }
  }

  /** Once the v1 asset type is known it stays known, whatever is written later. */
  lemma {:induction false} AssetV1StaysKnown(writes: seq<Balance>, more: seq<Balance>)
    requires After(writes).Some? && After(writes).value.assetV1.Some?
    ensures After(writes + more).Some? && After(writes + more).value.assetV1.Some?
  {
    if more == [] {
      assert writes + more == writes;
    } else {
      assert (writes + more)[..|writes + more| - 1] == writes + more[..|more| - 1];
      AssetV1StaysKnown(writes, more[..|more| - 1]);
    }
  }

  /** It is known after any v1 write, wherever that write fell among the others. */
  lemma {:induction false} V1WriteMakesAssetKnown(writes: seq<Balance>)
    requires exists i :: 0 <= i < |writes| && writes[i].standard == V1
    ensures After(writes).Some? && After(writes).value.assetV1.Some?
  {
    var n := |writes| - 1;
    if exists i :: 0 <= i < n && writes[i].standard == V1 {
      var i :| 0 <= i < n && writes[i].standard == V1;
      assert writes[..n][i].standard == V1;
      V1WriteMakesAssetKnown(writes[..n]);
    } else {
      var _ := HalfIsHighestVersion(writes[..n], V1);
      assert writes[n].standard == V1;
    }
  }

  // ---------------------------------------------------------------- the columns both sides write

  function Other(side: Standard): (r: Standard) {
    if side == V1 then V2 else V1
  }

  /** On its arrival write `i` was not older than any earlier write of its own side. */
  ghost predicate InTime(writes: seq<Balance>, i: int) {
    && 0 <= i < |writes|
    && forall j :: 0 <= j < i && writes[j].standard == writes[i].standard ==> writes[j].version <= writes[i].version
  }

  ghost predicate LastInTime(writes: seq<Balance>, i: int) {
    InTime(writes, i) && forall j :: InTime(writes, j) ==> j <= i
  }

  /** The row carries the shared columns of this write. */
  predicate Carries(r: Row, b: Balance) {
    r.owner == b.owner && r.isFrozen == b.isFrozen
  }

  lemma InTimeFront(writes: seq<Balance>, i: int)
    requires writes != [] && i < |writes| - 1
    ensures InTime(writes[..|writes| - 1], i) <==> InTime(writes, i)
  {
    assert forall j :: 0 <= j <= i ==> writes[..|writes| - 1][j] == writes[j];
  }

  /** The last write is admitted exactly when it is in time. */
  lemma AdmittedInTime(writes: seq<Balance>)
    requires writes != []
    ensures var n := |writes| - 1;
            Admits(HalfOf(After(writes[..n]), writes[n].standard), Some(HalfFrom(writes[n]))) <==> InTime(writes, n)
  {
    var n := |writes| - 1;
    var w := writes[n];
    var i := HalfIsHighestVersion(writes[..n], w.standard);
    assert forall j :: 0 <= j < n ==> writes[..n][j] == writes[j];
  }

  lemma UpsertCarries(stored: Option<Row>, w: Balance)
    ensures Admits(HalfOf(stored, w.standard), Some(HalfFrom(w))) ==> Carries(Upserted(stored, w), w)
    ensures !Admits(HalfOf(stored, w.standard), Some(HalfFrom(w))) ==> stored == Some(Upserted(stored, w))
  {
  }

  /** After any history owner and frozen flag are those of the last write that came in time. */
  lemma {:induction false} SharedIsLastInTime(writes: seq<Balance>) returns (i: int)
    requires writes != []
    ensures LastInTime(writes, i) && Carries(After(writes).value, writes[i])
  {
    var n := |writes| - 1;
    AdmittedInTime(writes);
    UpsertCarries(After(writes[..n]), writes[n]);
    if InTime(writes, n) {
      i := n;
    } else {
      assert After(writes[..n]).Some?;
      i := SharedIsLastInTime(writes[..n]);
      forall j | j < n
        ensures InTime(writes[..n], j) <==> InTime(writes, j)
      {
        InTimeFront(writes, j);
      }
    }
  }

  // ---------------------------------------------------------------- the columns of the asset

  /** The v2 asset type and the primary flag are those of the newest v2 write; before any there is no v2
      asset type and the store counts as primary. */
  lemma {:induction false} V2Columns(writes: seq<Balance>) returns (i: int)
    ensures (forall j :: 0 <= j < |writes| ==> writes[j].standard == V1) ==>
              (writes != [] ==> After(writes).value.assetV2 == None && After(writes).value.isPrimary)
    ensures (exists j :: 0 <= j < |writes| && writes[j].standard == V2) ==>
              && Decides(writes, V2, i)
              && After(writes).value.assetV2 == Some(writes[i].assetType) && After(writes).value.isPrimary == writes[i].isPrimary
  {
    i := 0;
    if writes != [] {
      var n := |writes| - 1;
      AdmittedInTime(writes);
      i := V2Columns(writes[..n]);
      assert forall j :: 0 <= j < n ==> writes[..n][j] == writes[j];
      if writes[n].standard == V2 && InTime(writes, n) {
        i := n;
      }
    }
  }

  /** The v1 asset type that a write carries. */
  function CoinOf(b: Balance): (r: Option<string>) {
    if b.standard == V1 then Some(b.assetType) else b.pairedCoin
  }

  ghost predicate Carries1(writes: seq<Balance>, i: int) {
    InTime(writes, i) && CoinOf(writes[i]).Some?
  }

  lemma AssetV1Step(stored: Option<Row>, w: Balance)
    ensures Upserted(stored, w).assetV1 ==
            if Admits(HalfOf(stored, w.standard), Some(HalfFrom(w))) && CoinOf(w).Some? then CoinOf(w)
            else if stored.Some? then stored.value.assetV1 else None
  {
  }

  /** Write `i` is the last in time that carries a v1 asset type, or none does. */
  ghost predicate LastCarrier(writes: seq<Balance>, i: Option<int>) {
    match i
    case None => forall j :: !Carries1(writes, j)
    case Some(h) => Carries1(writes, h) && forall j :: Carries1(writes, j) ==> j <= h
  }

  lemma CarrierNext(writes: seq<Balance>, i: Option<int>)
    requires writes != [] && LastCarrier(writes[..|writes| - 1], i)
    ensures LastCarrier(writes, if Carries1(writes, |writes| - 1) then Some(|writes| - 1) else i)
  {
    forall j | j < |writes| - 1
      ensures Carries1(writes[..|writes| - 1], j) <==> Carries1(writes, j)
    {
      InTimeFront(writes, j);
    }
    assert forall j :: Carries1(writes, j) ==> j <= |writes| - 1;
  }

  /** The v1 asset type is that of the last write in time that carries one, and null when none does. */
  lemma {:induction false} AssetV1Column(writes: seq<Balance>) returns (i: Option<int>)
    ensures LastCarrier(writes, i) && (i.Some? ==> 0 <= i.value < |writes|)
    ensures writes != [] ==> After(writes).value.assetV1 == if i.Some? then CoinOf(writes[i.value]) else None
  {
    i := None;
    if writes != [] {
      var n := |writes| - 1;
      i := AssetV1Column(writes[..n]);
      AdmittedInTime(writes);
      AssetV1Step(After(writes[..n]), writes[n]);
      CarrierNext(writes, i);
      i := if Carries1(writes, n) then Some(n) else i;
    }
  }

  /** The newest write of its side. */
  ghost predicate Newest(writes: seq<Balance>, side: Standard, w: Balance) {
    && w in writes && w.standard == side
    && forall v :: v in writes && v.standard == side ==> v.version <= w.version
  }

  /** The newest write of `side` came in after the newest of the other side, if that side wrote. */
  ghost predicate ClosedBy(writes: seq<Balance>, side: Standard) {
    exists i :: Decides(writes, side, i) && forall j :: Decides(writes, Other(side), j) ==> j < i
  }

  lemma DecidesInTime(writes: seq<Balance>, side: Standard, i: int)
    requires Decides(writes, side, i)
    ensures InTime(writes, i) && Newest(writes, side, writes[i])
  {
  }

  /** The last write in time is the newest of its side, and its side closes the history. */
  lemma LastInTimeCloses(writes: seq<Balance>, i: int)
    requires LastInTime(writes, i)
    ensures Decides(writes, writes[i].standard, i) && ClosedBy(writes, writes[i].standard) && !ClosedBy(writes, Other(writes[i].standard))
  {
    var side := writes[i].standard;
    var d := HalfIsHighestVersion(writes, side);
    DecidesInTime(writes, side, d);
    assert writes[i].version <= writes[d].version && d <= i;
    assert d == i && Other(Other(side)) == side;
    forall j | Decides(writes, Other(side), j)
      ensures j < i
    {
      DecidesInTime(writes, Other(side), j);
    }
  }

  predicate SameShared(v: Balance, w: Balance) {
    v.owner == w.owner && v.isFrozen == w.isFrozen
  }

  /** The newest writes of the two sides agree in the shared columns. */
  ghost predicate NewestAgree(writes: seq<Balance>) {
    forall v, w :: Newest(writes, V1, v) && Newest(writes, V2, w) ==> SameShared(v, w)
  }

  lemma SameNewest(a: seq<Balance>, b: seq<Balance>, side: Standard, v: Balance, w: Balance)
    requires OnePerVersion(a, side) && forall x :: x in a <==> x in b
    requires Newest(a, side, v) && Newest(b, side, w)
    ensures v == w
  {
  }

  /** The newest writes of the two sides are the only ones of their kind. */
  lemma AgreeIsSame(a: seq<Balance>, v: Balance, w: Balance)
    requires OnePerVersion(a, V1) && OnePerVersion(a, V2)
    requires Newest(a, v.standard, v) && Newest(a, w.standard, w) && v.standard != w.standard
    ensures NewestAgree(a) <==> SameShared(v, w)
  {
    forall x, y | Newest(a, V1, x) && Newest(a, V2, y)
      ensures SameShared(x, y) <==> SameShared(v, w)
    {
      SameNewest(a, a, V1, x, if v.standard == V1 then v else w);
      SameNewest(a, a, V2, y, if v.standard == V1 then w else v);
    }
  }

  /** Some side's newest write came in last in both orders. */
  ghost predicate SameCloser(a: seq<Balance>, b: seq<Balance>) {
    exists side :: ClosedBy(a, side) && ClosedBy(b, side)
  }

  /** One writer's columns in two orders: what it takes for them to agree. */
  lemma AgreeFor(a: seq<Balance>, b: seq<Balance>, v: Balance, w: Balance)
    requires (forall x :: x in a <==> x in b) && OnePerVersion(a, V1) && OnePerVersion(a, V2)
    requires Newest(a, v.standard, v) && Newest(b, w.standard, w)
    ensures SameShared(v, w) <==> v.standard == w.standard || NewestAgree(a)
  {
    assert Newest(a, w.standard, w);
    if v.standard == w.standard {
      SameNewest(a, a, v.standard, v, w);
    } else {
      AgreeIsSame(a, v, w);
    }
  }

  /** Two orders of arrival of the same writes leave the same owner and frozen flag exactly when the
      same side closes both or the newest writes of the two sides carry the same columns. */
  lemma SharedColumnsAgreeExactly(a: seq<Balance>, b: seq<Balance>)
    requires a != [] && b != [] && (forall w :: w in a <==> w in b) && OnePerVersion(a, V1) && OnePerVersion(a, V2)
    ensures After(a).value.owner == After(b).value.owner && After(a).value.isFrozen == After(b).value.isFrozen <==>
            SameCloser(a, b) || NewestAgree(a)
  {
    var v := LastWrite(a);
    var w := LastWrite(b);
    AgreeFor(a, b, v, w);
    assert SameCloser(a, b) <==> v.standard == w.standard by {
      assert ClosedBy(a, v.standard) && ClosedBy(b, w.standard);
    }
  }

  /** The write whose shared columns are kept. */
  lemma LastWrite(writes: seq<Balance>) returns (w: Balance)
    requires writes != []
    ensures Newest(writes, w.standard, w) && Carries(After(writes).value, w)
    ensures ClosedBy(writes, w.standard) && !ClosedBy(writes, Other(w.standard))
    ensures forall s :: ClosedBy(writes, s) ==> s == w.standard
  {
    var i := SharedIsLastInTime(writes);
    LastInTimeCloses(writes, i);
    w := writes[i];
    DecidesInTime(writes, w.standard, i);
    forall s | ClosedBy(writes, s)
      ensures s == w.standard
    {
      assert s == w.standard || s == Other(w.standard);
    }
  }

  /** The columns that both sides write do not converge: of one write of each side the second wins,
      whatever their versions, while the halves come out the same. */
  lemma SharedColumnsFollowArrival(a: Balance, b: Balance)
    requires a.standard == V1 && b.standard == V2
    ensures After([a, b]).value.isFrozen == b.isFrozen && After([a, b]).value.owner == b.owner
    ensures After([b, a]).value.isFrozen == a.isFrozen && After([b, a]).value.owner == a.owner
    ensures HalfOf(After([a, b]), V1) == HalfOf(After([b, a]), V1) && HalfOf(After([a, b]), V2) == HalfOf(After([b, a]), V2)
  {
    assert [a, b][..1] == [a] && [b, a][..1] == [b];
    assert [a][..0] == [] && [b][..0] == [];
    assert After([a]) == Some(FromBalance(a)) && After([b]) == Some(FromBalance(b));
  }
}

/** Public keys and the auth keys they belong to: one row per key triple with a flag that says
    whether the key was ever used. */
module AccountRestoration {
  import opened Prelude

  /** The columns that rows are deduplicated by. */
  datatype Key = Key(publicKey: string, keyType: string, authKey: string, version: int)

  /** A row of `public_key_auth_keys`. */
  datatype KeyRow = KeyRow(key: Key, used: bool, accountPublicKey: string, signatureType: string)

  // ---------------------------------------------------------------- the sort order

  /** Byte-wise string comparison. */
  function CompareStrings(a: string, b: string): (r: int) {
    if a == b then 0
    else if a == [] then -1
    else if b == [] then 1
    else if a[0] < b[0] then -1
    else if a[0] > b[0] then 1
    else CompareStrings(a[1..], b[1..])
  }

  lemma {:induction false} CompareIsAntisymmetric(a: string, b: string)
    ensures CompareStrings(a, b) == -CompareStrings(b, a)
    ensures CompareStrings(a, b) == 0 <==> a == b
  {
    if a != [] && b != [] && a[0] == b[0] {
      CompareIsAntisymmetric(a[1..], b[1..]);
      assert a == [a[0]] + a[1..] && b == [b[0]] + b[1..];
    }
  }

  /** The first place where two strings differ, or where one of them ends. */
  ghost predicate Splits(a: string, b: string, n: nat) {
    n <= |a| && n <= |b| && a[..n] == b[..n] && (n < |a| && n < |b| ==> a[n] != b[n])
  }

  /** A string is less when it ends there first or has the lesser character. */
  lemma {:induction false} CompareIsByteWise(a: string, b: string) returns (n: nat)
    ensures a != b ==> Splits(a, b, n) && (CompareStrings(a, b) < 0 <==> n < |b| && (n == |a| || a[n] < b[n]))
  {
    n := 0;
    if a != [] && b != [] && a[0] == b[0] && a != b {
      var m := CompareIsByteWise(a[1..], b[1..]);
      assert a == [a[0]] + a[1..] && b == [b[0]] + b[1..];
      n := m + 1;
      assert a[..n] == [a[0]] + a[1..][..m] && b[..n] == [b[0]] + b[1..][..m];
    }
  }

  lemma {:induction false} CompareIsTransitive(a: string, b: string, c: string)
    requires CompareStrings(a, b) <= 0 && CompareStrings(b, c) <= 0
    ensures CompareStrings(a, c) <= 0
  {
    if a != [] && b != [] && c != [] && a[0] == b[0] == c[0] {
      if a != b && b != c {
        CompareIsTransitive(a[1..], b[1..], c[1..]);
      }
    }
  }

  function CompareVersions(a: int, b: int): (r: int) {
    if a < b then -1 else if a == b then 0 else 1
  }

  function Then(first: int, second: int): (r: int) {
    if first != 0 then first else second
  }

  /** Order of the key columns: public key, type, auth key, version. */
  function CompareKeys(a: Key, b: Key): (r: int) {
    Then(CompareStrings(a.publicKey, b.publicKey),
    Then(CompareStrings(a.keyType, b.keyType),
    Then(CompareStrings(a.authKey, b.authKey), CompareVersions(a.version, b.version))))
  }

  /** Full order: within a key, used rows come first. */
  predicate NotAfter(a: KeyRow, b: KeyRow) {
    CompareKeys(a.key, b.key) < 0 || (CompareKeys(a.key, b.key) == 0 && (a.used || !b.used))
  }

  /** The columns are compared one after the other: public key, type, auth key, version. */
  lemma KeysAreLexicographic(a: Key, b: Key)
    ensures CompareKeys(a, b) < 0 <==>
            if a.publicKey != b.publicKey then CompareStrings(a.publicKey, b.publicKey) < 0
            else if a.keyType != b.keyType then CompareStrings(a.keyType, b.keyType) < 0
            else if a.authKey != b.authKey then CompareStrings(a.authKey, b.authKey) < 0
            else a.version < b.version
  {
    Columns(a, b);
  }

  lemma KeysAreOrdered(a: Key, b: Key)
    ensures CompareKeys(a, b) == -CompareKeys(b, a)
    ensures CompareKeys(a, b) == 0 <==> a == b
  {
    CompareIsAntisymmetric(a.publicKey, b.publicKey);
    CompareIsAntisymmetric(a.keyType, b.keyType);
    CompareIsAntisymmetric(a.authKey, b.authKey);
  }

  lemma StringsBetween(a: string, b: string, c: string)
    requires CompareStrings(a, b) <= 0 && CompareStrings(b, c) <= 0
    ensures CompareStrings(a, c) <= 0
    ensures a == c ==> a == b
  {
    CompareIsTransitive(a, b, c);
    CompareIsAntisymmetric(a, b);
  }

  lemma Columns(a: Key, b: Key)
    ensures CompareStrings(a.publicKey, b.publicKey) == 0 <==> a.publicKey == b.publicKey
    ensures CompareStrings(a.keyType, b.keyType) == 0 <==> a.keyType == b.keyType
    ensures CompareStrings(a.authKey, b.authKey) == 0 <==> a.authKey == b.authKey
  {
    CompareIsAntisymmetric(a.publicKey, b.publicKey);
    CompareIsAntisymmetric(a.keyType, b.keyType);
    CompareIsAntisymmetric(a.authKey, b.authKey);
  }

  lemma KeysTransitive(a: Key, b: Key, c: Key)
    requires CompareKeys(a, b) <= 0 && CompareKeys(b, c) <= 0
    ensures CompareKeys(a, c) <= 0
    ensures a == c ==> a == b
  {
    Columns(a, b);
    Columns(b, c);
    Columns(a, c);
    StringsBetween(a.publicKey, b.publicKey, c.publicKey);
    if CompareStrings(a.keyType, b.keyType) <= 0 && CompareStrings(b.keyType, c.keyType) <= 0 {
      StringsBetween(a.keyType, b.keyType, c.keyType);
    }
    if CompareStrings(a.authKey, b.authKey) <= 0 && CompareStrings(b.authKey, c.authKey) <= 0 {
      StringsBetween(a.authKey, b.authKey, c.authKey);
    }
  }

  // ---------------------------------------------------------------- sort and dedup

  ghost predicate Sorted(s: seq<KeyRow>) {
    forall i, j :: 0 <= i < j < |s| ==> NotAfter(s[i], s[j])
  }

  /** Stable insertion behind every row that does not come after the new one. */
  function Insert(s: seq<KeyRow>, x: KeyRow): (r: seq<KeyRow>) {
    if s == [] || NotAfter(s[|s| - 1], x) then s + [x] else Insert(s[..|s| - 1], x) + [s[|s| - 1]]
  }

  function Sort(s: seq<KeyRow>): (r: seq<KeyRow>) {
    if s == [] then [] else Insert(Sort(s[..|s| - 1]), s[|s| - 1])
  }

  lemma NotAfterTransitive(a: KeyRow, b: KeyRow, c: KeyRow)
    requires NotAfter(a, b) && NotAfter(b, c)
    ensures NotAfter(a, c)
    ensures a.key == c.key ==> a.key == b.key && (c.used ==> a.used)
  {
    KeysTransitive(a.key, b.key, c.key);
    KeysAreOrdered(a.key, b.key);
    KeysAreOrdered(b.key, c.key);
    KeysAreOrdered(a.key, c.key);
  }

  lemma NotAfterTotal(a: KeyRow, b: KeyRow)
    ensures NotAfter(a, b) || NotAfter(b, a)
  {
    KeysAreOrdered(a.key, b.key);
  }

  lemma {:induction false} InsertAdds(s: seq<KeyRow>, x: KeyRow)
    ensures forall e :: e in Insert(s, x) <==> e in s || e == x
  {
    if s != [] && !NotAfter(s[|s| - 1], x) {
      InsertAdds(s[..|s| - 1], x);
      assert s == s[..|s| - 1] + [s[|s| - 1]];
    }
  }

  lemma {:induction false} InsertSorts(s: seq<KeyRow>, x: KeyRow)
    requires Sorted(s)
    ensures Sorted(Insert(s, x))
  {
    if s == [] {
    } else if NotAfter(s[|s| - 1], x) {
      forall i | 0 <= i < |s|
        ensures NotAfter(s[i], x)
      {
        if i < |s| - 1 {
          NotAfterTransitive(s[i], s[|s| - 1], x);
        }
      }
    } else {
      var n := |s| - 1;
      var r := Insert(s[..n], x);
      NotAfterTotal(s[n], x);
      InsertSorts(s[..n], x);
      InsertAdds(s[..n], x);
      forall i | 0 <= i < |r|
        ensures NotAfter(r[i], s[n])
      {
        assert r[i] in r;
      }
    }
  }

  lemma {:induction false} SortSorts(s: seq<KeyRow>)
    ensures Sorted(Sort(s))
    ensures forall e :: e in Sort(s) <==> e in s
  {
    if s != [] {
      var n := |s| - 1;
      SortSorts(s[..n]);
      InsertSorts(Sort(s[..n]), s[n]);
      InsertAdds(Sort(s[..n]), s[n]);
      assert s == s[..n] + [s[n]];
    }
  }

  /** Removes each row whose key is that of the row kept before it. */
  function Dedup(s: seq<KeyRow>): (r: seq<KeyRow>)
    ensures s != [] ==> r != []
  {
    if s == [] then []
    else
      var kept := Dedup(s[..|s| - 1]);
      if kept != [] && s[|s| - 1].key == kept[|kept| - 1].key then kept else kept + [s[|s| - 1]]
  }

  ghost predicate OneRowPerKey(rows: seq<KeyRow>) {
    forall i, j :: 0 <= i < j < |rows| ==> rows[i].key != rows[j].key
  }

  ghost predicate HasKey(rows: seq<KeyRow>, k: Key) {
    exists r :: r in rows && r.key == k
  }

  ghost predicate UsedIn(all: seq<KeyRow>, k: Key) {
    exists a :: a in all && a.key == k && a.used
  }

  /** Each row of `rows` stands for all rows of `all` with its key, and is used exactly if any is. */
  ghost predicate Represents(rows: seq<KeyRow>, all: seq<KeyRow>) {
    && (forall r :: r in rows ==> r in all && (r.used <==> UsedIn(all, r.key)))
    && (forall a {:trigger HasKey(rows, a.key)} :: a in all ==> HasKey(rows, a.key))
  }

  /** The rows kept so far, up to the row `last`. */
  ghost predicate KeptUpTo(rows: seq<KeyRow>, last: KeyRow) {
    && rows != [] && rows[|rows| - 1].key == last.key
    && forall r {:trigger NotAfter(r, last)} :: r in rows ==> NotAfter(r, last)
  }

  lemma {:induction false} DedupKeeps(s: seq<KeyRow>) returns (kept: seq<KeyRow>)
    requires Sorted(s) && s != []
    ensures kept == Dedup(s)
    ensures OneRowPerKey(kept) && Represents(kept, s) && KeptUpTo(kept, s[|s| - 1])
  {
    var n := |s| - 1;
    if n == 0 {
      SingleKept(s[0]);
      kept := [s[0]];
      assert s == [s[0]];
    } else {
      SortedFront(s);
      var front := DedupKeeps(s[..n]);
      kept := NextKept(s, front);
    }
  }

  lemma SortedFront(s: seq<KeyRow>)
    requires Sorted(s) && |s| > 1
    ensures Sorted(s[..|s| - 1]) && NotAfter(s[..|s| - 1][|s| - 2], s[|s| - 1])
  {
  }

  lemma SingleKept(x: KeyRow)
    ensures Dedup([x]) == [x] && OneRowPerKey([x]) && Represents([x], [x]) && KeptUpTo([x], x)
  {
    assert [x][..0] == [];
    KeysAreOrdered(x.key, x.key);
  }

  lemma KeptNotAfter(kept: seq<KeyRow>, last: KeyRow, x: KeyRow)
    requires KeptUpTo(kept, last) && NotAfter(last, x)
    ensures forall r :: r in kept ==> NotAfter(r, x) && (r.key == x.key ==> last.key == x.key && (x.used ==> r.used))
  {
    forall r | r in kept
      ensures NotAfter(r, x) && (r.key == x.key ==> last.key == x.key && (x.used ==> r.used))
    {
      NotAfterTransitive(r, last, x);
    }
  }

  lemma KeptBy(s: seq<KeyRow>, kept: seq<KeyRow>, last: KeyRow, x: KeyRow)
    requires OneRowPerKey(kept) && Represents(kept, s) && KeptUpTo(kept, last) && NotAfter(last, x)
    ensures var after := if x.key == kept[|kept| - 1].key then kept else kept + [x];
            OneRowPerKey(after) && Represents(after, s + [x]) && KeptUpTo(after, x)
  {
    KeptNotAfter(kept, last, x);
    KeysAreOrdered(x.key, x.key);
    if x.key == last.key {
      SameKeyNext(s, kept, x);
    } else {
      NewKeyNext(s, kept, x);
    }
  }

  lemma NextKept(s: seq<KeyRow>, front: seq<KeyRow>) returns (kept: seq<KeyRow>)
    requires |s| > 1 && NotAfter(s[|s| - 2], s[|s| - 1])
    requires OneRowPerKey(front) && Represents(front, s[..|s| - 1]) && KeptUpTo(front, s[|s| - 2])
    ensures kept == if s[|s| - 1].key == front[|front| - 1].key then front else front + [s[|s| - 1]]
    ensures OneRowPerKey(kept) && Represents(kept, s) && KeptUpTo(kept, s[|s| - 1])
  {
    var before, last, x := s[..|s| - 1], s[|s| - 2], s[|s| - 1];
    assert s == before + [x];
    KeptBy(before, front, last, x);
    kept := if x.key == front[|front| - 1].key then front else front + [x];
  }

  lemma SameKeyNext(s: seq<KeyRow>, kept: seq<KeyRow>, x: KeyRow)
    requires Represents(kept, s) && kept != [] && kept[|kept| - 1].key == x.key
    requires forall r :: r in kept && r.key == x.key ==> (x.used ==> r.used)
    ensures Represents(kept, s + [x])
  {
    forall r | r in kept
      ensures r.used <==> UsedIn(s + [x], r.key)
    {
      if UsedIn(s + [x], r.key) {
        var a :| a in s + [x] && a.key == r.key && a.used;
        assert a in s ==> UsedIn(s, r.key);
      }
      if r.used {
        assert r in s + [x];
      }
    }
    assert kept[|kept| - 1] in kept;
    assert HasKey(kept, x.key);
  }

  lemma NewKeyNext(s: seq<KeyRow>, kept: seq<KeyRow>, x: KeyRow)
    requires Represents(kept, s) && OneRowPerKey(kept)
    requires forall r :: r in kept ==> r.key != x.key
    ensures Represents(kept + [x], s + [x]) && OneRowPerKey(kept + [x])
  {
    forall a | a in s
      ensures a.key != x.key && HasKey(kept + [x], a.key)
    {
      assert HasKey(kept, a.key);
      var r :| r in kept && r.key == a.key;
      assert r in kept + [x];
    }
    forall r | r in kept + [x]
      ensures r.used <==> UsedIn(s + [x], r.key)
    {
      if UsedIn(s + [x], r.key) {
        var a :| a in s + [x] && a.key == r.key && a.used;
        assert a in s ==> UsedIn(s, r.key);
      }
      if r.used {
        assert r in s + [x];
      }
    }
    assert x in kept + [x];
    assert HasKey(kept + [x], x.key);
    assert forall i :: 0 <= i < |kept| ==> kept[i] in kept;
  }

  lemma {:induction false} DedupStaysSorted(s: seq<KeyRow>)
    requires Sorted(s)
    ensures Sorted(Dedup(s))
  {
    if |s| > 1 {
      var n := |s| - 1;
      var kept := Dedup(s[..n]);
      DedupStaysSorted(s[..n]);
      kept := DedupKeeps(s[..n]);
      KeptNotAfter(kept, s[n - 1], s[n]);
      assert forall i :: 0 <= i < |kept| ==> kept[i] in kept;
    }
  }

  lemma RepresentsSame(rows: seq<KeyRow>, a: seq<KeyRow>, b: seq<KeyRow>)
    requires Represents(rows, a) && forall e :: e in a <==> e in b
    ensures Represents(rows, b)
  {
    forall k
      ensures UsedIn(a, k) <==> UsedIn(b, k)
    {
      if UsedIn(a, k) {
        var e :| e in a && e.key == k && e.used;
        assert e in b;
      }
      if UsedIn(b, k) {
        var e :| e in b && e.key == k && e.used;
        assert e in a;
      }
    }
  }

  function SortAndDedup(all: seq<KeyRow>): (r: seq<KeyRow>) {
    Dedup(Sort(all))
  }

  /** The tail of the parser: sort, then drop duplicates.  One row is left per (public key, type,
      auth key, version), and it is marked used exactly when some duplicate was. */
  lemma SortAndDedupRepresents(all: seq<KeyRow>)
    ensures OneRowPerKey(SortAndDedup(all)) && Represents(SortAndDedup(all), all)
  {
    SortSorts(all);
    if Sort(all) != [] {
      var kept := DedupKeeps(Sort(all));
      RepresentsSame(kept, Sort(all), all);
    } else {
      assert forall e :: e in all ==> e in Sort(all);
    }
  }

  // ---------------------------------------------------------------- storing

  /** The conflict key of the table; it leaves out the version. */
  datatype Triple = Triple(authKey: string, publicKey: string, keyType: string)

  function TripleOf(r: KeyRow): (t: Triple) {
    Triple(r.key.authKey, r.key.publicKey, r.key.keyType)
  }

  /** The guarded upsert with the sticky flag. */
  function Upserted(stored: Option<KeyRow>, row: KeyRow): (r: KeyRow) {
    match stored
    case None => row
    case Some(s) => if s.key.version > row.key.version then s else row.(used := s.used || row.used)
  }

  type Table = map<Triple, KeyRow>

  /** The version guard turns this row away and leaves the stored one as it is. */
  predicate Outdated(stored: Option<KeyRow>, r: KeyRow) {
    stored.Some? && stored.value.key.version > r.key.version
  }

  /** One statement may not come back to a row that it has inserted or updated.  It may come back
      to a row that it only looked at because the guard turned its earlier rows away. */
  ghost predicate Accepts(was: Table, rows: seq<KeyRow>) {
    forall i, j :: 0 <= i < j < |rows| && TripleOf(rows[i]) == TripleOf(rows[j]) ==> Outdated(Get(was, TripleOf(rows[i])), rows[i])
  }

  /** Each row that the guard lets through has been upserted; nothing else changed. */
  ghost predicate Stored(was: Table, rows: seq<KeyRow>, now: Table) {
    && (forall r :: r in rows && !Outdated(Get(was, TripleOf(r)), r) ==> Get(now, TripleOf(r)) == Some(Upserted(Get(was, TripleOf(r)), r)))
    && (forall t :: (forall r :: r in rows && TripleOf(r) == t ==> Outdated(Get(was, t), r)) ==> Get(now, t) == Get(was, t))
  }

  class AccountRestorationStorer {
    var rows: Table

    constructor ()
      ensures rows == map[]
    {
      rows := map[];
    }

    /** One insert statement.  It fails as a whole when a row meets one that the same statement has
        inserted or updated before. */
    method InsertPublicKeyAuthKeys(batch: seq<KeyRow>) returns (ok: bool)
      modifies this
      ensures ok <==> Accepts(old(rows), batch)
      ensures !ok ==> rows == old(rows)
      ensures ok ==> Stored(old(rows), batch, rows)
    {
      var written: set<Triple> := {};
      var result := rows;
      for i := 0 to |batch|
        invariant rows == old(rows)
        invariant Accepts(rows, batch[..i])
        invariant PartlyStored(rows, batch[..i], result, written)
      {
        assert batch[..i] + [batch[i]] == batch[..i + 1];
        ok, result, written := UpsertRow(rows, batch[..i], result, written, batch[i]);
        if !ok {
          RefusedPrefix(rows, batch, i + 1);
          return false;
        }
      }
      assert batch[..|batch|] == batch;
      rows := result;
      ok := true;
    }
  }

  /** One row of a statement; `before` are the rows it has handled so far. */
  method UpsertRow(ghost was: Table, ghost before: seq<KeyRow>, now: Table, written: set<Triple>, r: KeyRow)
    returns (ok: bool, now': Table, written': set<Triple>)
    requires Accepts(was, before) && PartlyStored(was, before, now, written)
    ensures ok <==> Accepts(was, before + [r])
    ensures ok ==> PartlyStored(was, before + [r], now', written')
  {
    var t := TripleOf(r);
    StoreNext(was, before, now, written, r);
    ok, now', written' := t !in written, now, written;
    if ok && (t !in now || now[t].key.version <= r.key.version) {
      now' := now[t := if t in now then r.(used := now[t].used || r.used) else r];
      written' := written + {t};
    }
  }

  /** Part way through a statement: `written` are the triples it has inserted or updated. */
  ghost predicate PartlyStored(was: Table, rows: seq<KeyRow>, now: Table, written: set<Triple>) {
    && (forall t :: t in written <==> LetThrough(was, rows, t))
    && (forall t :: t !in written ==> Get(now, t) == Get(was, t))
    && (forall r :: r in rows && !Outdated(Get(was, TripleOf(r)), r) ==> Get(now, TripleOf(r)) == Some(Upserted(Get(was, TripleOf(r)), r)))
  }

  lemma StoreNext(was: Table, rows: seq<KeyRow>, now: Table, written: set<Triple>, r: KeyRow)
    requires Accepts(was, rows) && PartlyStored(was, rows, now, written)
    ensures var t := TripleOf(r);
            && (Accepts(was, rows + [r]) <==> t !in written)
            && (t !in written && Outdated(Get(now, t), r) ==> PartlyStored(was, rows + [r], now, written))
            && (t !in written && !Outdated(Get(now, t), r) ==>
                  PartlyStored(was, rows + [r], now[t := Upserted(Get(now, t), r)], written + {t}))
  {
    if TripleOf(r) in written {
      ReturnIsRefused(was, rows, r);
    } else {
      OthersAreAccepted(was, rows, r);
      StoreFits(was, rows, now, written, r);
    }
  }

  /** The statement has let a row of this triple through. */
  ghost predicate LetThrough(was: Table, rows: seq<KeyRow>, t: Triple) {
    exists q :: q in rows && TripleOf(q) == t && !Outdated(Get(was, t), q)
  }

  lemma ReturnIsRefused(was: Table, rows: seq<KeyRow>, r: KeyRow)
    requires LetThrough(was, rows, TripleOf(r))
    ensures !Accepts(was, rows + [r])
  {
    var q :| q in rows && TripleOf(q) == TripleOf(r) && !Outdated(Get(was, TripleOf(r)), q);
    var i :| 0 <= i < |rows| && rows[i] == q;
    assert (rows + [r])[i] == q && (rows + [r])[|rows|] == r;
  }

  lemma OthersAreAccepted(was: Table, rows: seq<KeyRow>, r: KeyRow)
    requires Accepts(was, rows) && !LetThrough(was, rows, TripleOf(r))
    ensures Accepts(was, rows + [r])
  {
    assert forall i :: 0 <= i < |rows| ==> (rows + [r])[i] == rows[i] && rows[i] in rows;
  }

  lemma StoreFits(was: Table, rows: seq<KeyRow>, now: Table, written: set<Triple>, r: KeyRow)
    requires PartlyStored(was, rows, now, written) && TripleOf(r) !in written
    ensures var t := TripleOf(r);
            if Outdated(Get(now, t), r) then PartlyStored(was, rows + [r], now, written)
            else PartlyStored(was, rows + [r], now[t := Upserted(Get(now, t), r)], written + {t})
  {
    var t := TripleOf(r);
    var written' := if Outdated(Get(now, t), r) then written else written + {t};
    forall u
      ensures u in written' <==> LetThrough(was, rows + [r], u)
    {
      if u in written {
        var q :| q in rows && TripleOf(q) == u && !Outdated(Get(was, u), q);
        assert q in rows + [r];
      } else if u == t && !Outdated(Get(was, t), r) {
        assert r in rows + [r];
      }
    }
  }

  lemma RefusedPrefix(was: Table, rows: seq<KeyRow>, n: nat)
    requires n <= |rows| && !Accepts(was, rows[..n])
    ensures !Accepts(was, rows)
  {
    assert forall i :: 0 <= i < n ==> rows[..n][i] == rows[i];
  }

  /** The rows of a triple come in rising version order. */
  lemma VersionsRise(rows: seq<KeyRow>, i: nat, j: nat)
    requires Sorted(rows) && OneRowPerKey(rows) && i < j < |rows| && TripleOf(rows[i]) == TripleOf(rows[j])
    ensures rows[i].key.version < rows[j].key.version
  {
    var a, b := rows[i], rows[j];
    assert NotAfter(a, b) && a.key != b.key;
    Columns(a.key, b.key);
  }

  lemma SortAndDedupOrdered(all: seq<KeyRow>)
    ensures Sorted(SortAndDedup(all))
  {
    SortSorts(all);
    DedupStaysSorted(Sort(all));
  }

  /** Of the versions at which a triple occurs in `all`, every one but the greatest is older than
      the stored row. */
  ghost predicate OnlyNewestCounts(was: Table, all: seq<KeyRow>) {
    forall a, b :: a in all && b in all && TripleOf(a) == TripleOf(b) && a.key.version < b.key.version ==> Outdated(Get(was, TripleOf(a)), a)
  }

  lemma AcceptedNeedsNewest(was: Table, all: seq<KeyRow>, rows: seq<KeyRow>, a: KeyRow, b: KeyRow)
    requires Represents(rows, all) && OneRowPerKey(rows) && Sorted(rows) && Accepts(was, rows)
    requires a in all && b in all && TripleOf(a) == TripleOf(b) && a.key.version < b.key.version
    ensures Outdated(Get(was, TripleOf(a)), a)
  {
    assert HasKey(rows, a.key) && HasKey(rows, b.key);
    var r :| r in rows && r.key == a.key;
    var q :| q in rows && q.key == b.key;
    var i :| 0 <= i < |rows| && rows[i] == r;
    var j :| 0 <= j < |rows| && rows[j] == q;
    if j < i {
      VersionsRise(rows, j, i);
    }
  }

  lemma NewestIsAccepted(was: Table, all: seq<KeyRow>, rows: seq<KeyRow>)
    requires Represents(rows, all) && OneRowPerKey(rows) && Sorted(rows) && OnlyNewestCounts(was, all)
    ensures Accepts(was, rows)
  {
    forall i, j | 0 <= i < j < |rows| && TripleOf(rows[i]) == TripleOf(rows[j])
      ensures Outdated(Get(was, TripleOf(rows[i])), rows[i])
    {
      VersionsRise(rows, i, j);
      var r, q := rows[i], rows[j];
      assert r in rows && q in rows;
    }
  }

  /** Deduplication keeps the version in its key and the conflict key does not, so a batch can be
      inserted exactly when all but the newest of its versions of a triple are older than what is
      stored: a replay over a newer table goes through, two new versions do not. */
  lemma BatchInsertsExactly(was: Table, all: seq<KeyRow>)
    ensures Accepts(was, SortAndDedup(all)) <==> OnlyNewestCounts(was, all)
  {
    var rows := SortAndDedup(all);
    SortAndDedupRepresents(all);
    SortAndDedupOrdered(all);
    if Accepts(was, rows) {
      forall a, b | a in all && b in all && TripleOf(a) == TripleOf(b) && a.key.version < b.key.version
        ensures Outdated(Get(was, TripleOf(a)), a)
      {
        AcceptedNeedsNewest(was, all, rows, a, b);
      }
    }
    if OnlyNewestCounts(was, all) {
      NewestIsAccepted(was, all, rows);
    }
  }

  /** Two versions of one triple that are new together fail. */
  lemma TogetherFails(a: KeyRow, b: KeyRow)
    requires TripleOf(a) == TripleOf(b) && a.key.version < b.key.version
    ensures !Accepts(map[], SortAndDedup([a, b]))
  {
    BatchInsertsExactly(map[], [a, b]);
    assert a in [a, b] && b in [a, b] && !Outdated(Get(map[], TripleOf(a)), a);
  }

  lemma OlderOnly(was: Table, a: KeyRow, b: KeyRow)
    requires TripleOf(a) == TripleOf(b) && a.key.version < b.key.version && Outdated(Get(was, TripleOf(a)), a)
    ensures OnlyNewestCounts(was, [a, b])
  {
    assert forall c :: c in [a, b] ==> c == a || c == b;
  }

  /** Once the newer one is stored the same two rows go through. */
  lemma ReplayGoesThrough(a: KeyRow, b: KeyRow)
    requires TripleOf(a) == TripleOf(b) && a.key.version < b.key.version
    ensures Accepts(map[TripleOf(b) := b], SortAndDedup([a, b]))
  {
    BatchInsertsExactly(map[TripleOf(b) := b], [a, b]);
    OlderOnly(map[TripleOf(b) := b], a, b);
  }

  const V3 := KeyRow(Key("pk", "ed25519", "auth", 3), true, "account", "single")
  const V5 := KeyRow(Key("pk", "ed25519", "auth", 5), true, "account", "single")

  /** A batch that fails on an empty table and is accepted as a replay. */
  lemma TwoVersionsTogether()
    ensures !Accepts(map[], SortAndDedup([V3, V5]))
    ensures Accepts(map[TripleOf(V5) := V5], SortAndDedup([V3, V5]))
  {
    assert TripleOf(V3) == TripleOf(V5);
    TogetherFails(V3, V5);
    ReplayGoesThrough(V3, V5);
  }

  // ---------------------------------------------------------------- the flag of one triple

  /** The row of one triple after a sequence of upserts. */
  function After(writes: seq<KeyRow>): (r: Option<KeyRow>) {
    if writes == [] then None else Some(Upserted(After(writes[..|writes| - 1]), writes[|writes| - 1]))
  }

  /** Write `i` came no earlier than, in version, every write before it. */
  ghost predicate Current(writes: seq<KeyRow>, i: int) {
    0 <= i < |writes| && forall j :: 0 <= j < i ==> writes[j].key.version <= writes[i].key.version
  }

  /** Some used row arrived that was not outdated on arrival. */
  ghost predicate UsedInTime(writes: seq<KeyRow>) {
    exists i :: Current(writes, i) && writes[i].used
  }

  /** The greatest version among the writes. */
  ghost predicate GreatestVersion(writes: seq<KeyRow>, v: int) {
    && (forall w :: w in writes ==> w.key.version <= v)
    && exists w :: w in writes && w.key.version == v
  }

  lemma UsedInTimeExtends(writes: seq<KeyRow>, w: KeyRow, v: int)
    requires GreatestVersion(writes, v)
    ensures UsedInTime(writes + [w]) <==> UsedInTime(writes) || (v <= w.key.version && w.used)
  {
    var all, n := writes + [w], |writes|;
    forall i | 0 <= i < n
      ensures Current(all, i) <==> Current(writes, i)
    {
      assert forall j :: 0 <= j <= i ==> all[j] == writes[j];
    }
    assert forall j :: 0 <= j < n ==> all[j] in writes;
    assert Current(all, n) <==> v <= w.key.version by {
      var g :| g in writes && g.key.version == v;
      var j :| 0 <= j < n && writes[j] == g;
      assert all[j] == g;
    }
    if UsedInTime(writes) {
      var i :| Current(writes, i) && writes[i].used;
      assert Current(all, i) && all[i].used;
    }
    assert all[n] == w;
  }

  /** For any order of arrival: the stored version is the greatest, and the flag is set exactly when
      some used row arrived that was not outdated on arrival. */
  lemma {:induction false} FlagExactly(writes: seq<KeyRow>)
    requires writes != []
    ensures GreatestVersion(writes, After(writes).value.key.version)
    ensures After(writes).value.used <==> UsedInTime(writes)
  {
    var n := |writes| - 1;
    var before, w := writes[..n], writes[n];
    assert writes == before + [w];
    if n == 0 {
      assert After(writes) == Some(w);
      assert Current(writes, 0);
      assert w in writes;
    } else {
      FlagExactly(before);
      var v := After(before).value.key.version;
      UsedInTimeExtends(before, w, v);
      GreatestExtends(before, w, v);
    }
  }

  ghost predicate LastCurrent(writes: seq<KeyRow>, i: int) {
    Current(writes, i) && forall j :: Current(writes, j) ==> j <= i
  }

  lemma LastCurrentNext(writes: seq<KeyRow>, w: KeyRow, v: int, i: int)
    requires GreatestVersion(writes, v) && LastCurrent(writes, i)
    ensures LastCurrent(writes + [w], if v <= w.key.version then |writes| else i)
  {
    CurrentExtends(writes, w, v);
    assert forall j :: Current(writes + [w], j) ==> j <= |writes|;
  }

  /** Apart from the flag the stored row is the last write that was not outdated on arrival. */
  lemma {:induction false} RowIsLastCurrent(writes: seq<KeyRow>) returns (i: int)
    requires writes != []
    ensures LastCurrent(writes, i) && After(writes).value == writes[i].(used := After(writes).value.used)
  {
    var n := |writes| - 1;
    var front, w := writes[..n], writes[n];
    assert writes == front + [w];
    if n == 0 {
      i := 0;
      assert After(writes) == Some(w);
      assert Current(writes, 0) && forall j :: Current(writes, j) ==> j <= 0;
    } else {
      FlagExactly(front);
      i := RowIsLastCurrent(front);
      LastCurrentNext(front, w, After(front).value.key.version, i);
      i := if After(front).value.key.version <= w.key.version then n else i;
    }
  }

  lemma CurrentExtends(writes: seq<KeyRow>, w: KeyRow, v: int)
    requires GreatestVersion(writes, v)
    ensures forall i :: i < |writes| ==> (Current(writes + [w], i) <==> Current(writes, i))
    ensures Current(writes + [w], |writes|) <==> v <= w.key.version
  {
    var all, n := writes + [w], |writes|;
    forall i | i < n
      ensures Current(all, i) <==> Current(writes, i)
    {
      assert forall j :: 0 <= j <= i ==> all[j] == writes[j];
    }
    assert forall j :: 0 <= j < n ==> all[j] in writes;
    var g :| g in writes && g.key.version == v;
    var j :| 0 <= j < n && writes[j] == g;
    assert all[j] == g;
  }

  lemma GreatestExtends(writes: seq<KeyRow>, w: KeyRow, v: int)
    requires GreatestVersion(writes, v)
    ensures GreatestVersion(writes + [w], if v <= w.key.version then w.key.version else v)
  {
    var g :| g in writes && g.key.version == v;
    assert g in writes + [w] && w in writes + [w];
  }

  /** A set flag never reverts. */
  lemma {:induction false} FlagIsSticky(writes: seq<KeyRow>, more: seq<KeyRow>)
    requires After(writes).Some? && After(writes).value.used
    ensures After(writes + more).Some? && After(writes + more).value.used
  {
    if more == [] {
      assert writes + more == writes;
    } else {
      assert (writes + more)[..|writes + more| - 1] == writes + more[..|more| - 1];
      FlagIsSticky(writes, more[..|more| - 1]);
    }
  }

  /** A used row that arrives after a newer unused one is lost. */
  lemma LateUseIsLost(early: KeyRow, newer: KeyRow)
    requires early.used && !newer.used && early.key.version < newer.key.version
    ensures !After([newer, early]).value.used && After([early, newer]).value.used
  {
    assert [newer, early][..1] == [newer] && [early, newer][..1] == [early];
    assert [newer][..0] == [] && [early][..0] == [];
    assert After([newer]) == Some(newer) && After([early]) == Some(early);
  }

  // ---------------------------------------------------------------- whole runs of batches

  /** Marks the steps of a run. */
  ghost predicate Step(i: int) {
    true
  }

  /** The tables a run goes through when every batch inserts. */
  ghost predicate IsRun(batches: seq<seq<KeyRow>>, ts: seq<Table>) {
    && |ts| == |batches| + 1 && ts[0] == map[]
    && forall i {:trigger Step(i)} :: 0 <= i < |batches| && Step(i) ==>
         Accepts(ts[i], SortAndDedup(batches[i])) && Stored(ts[i], SortAndDedup(batches[i]), ts[i + 1])
  }

  lemma RunStep(batches: seq<seq<KeyRow>>, ts: seq<Table>, i: nat)
    requires IsRun(batches, ts) && i < |batches|
    ensures Accepts(ts[i], SortAndDedup(batches[i])) && Stored(ts[i], SortAndDedup(batches[i]), ts[i + 1])
  {
    assert Step(i);
  }

  ghost predicate NoneNewer(earlier: seq<KeyRow>, later: seq<KeyRow>) {
    forall r, q :: r in earlier && q in later && TripleOf(r) == TripleOf(q) ==> r.key.version <= q.key.version
  }

  /** Batches arrive in version order: no row comes after a newer row of its triple. */
  ghost predicate InOrder(batches: seq<seq<KeyRow>>) {
    forall i, j {:trigger NoneNewer(batches[i], batches[j])} :: 0 <= i < j < |batches| ==> NoneNewer(batches[i], batches[j])
  }

  /** These rows hold one of this triple, a used one if `used` asks for it. */
  ghost predicate HasRow(all: seq<KeyRow>, t: Triple, used: bool) {
    exists r :: r in all && TripleOf(r) == t && (used ==> r.used)
  }

  /** The first `n` batches have a row of this triple, used if `used` asks for it. */
  ghost predicate Extracted(batches: seq<seq<KeyRow>>, n: nat, t: Triple, used: bool)
    requires n <= |batches|
  {
    exists i :: 0 <= i < n && HasRow(batches[i], t, used)
  }

  /** The row that a batch upserts for a triple. */
  ghost predicate RowOf(all: seq<KeyRow>, t: Triple, r: KeyRow) {
    r in all && TripleOf(r) == t && (r.used <==> HasRow(all, t, true))
  }

  /** No row of this triple is turned away by the guard. */
  ghost predicate AllCurrent(stored: Option<KeyRow>, all: seq<KeyRow>, t: Triple) {
    forall a :: a in all && TripleOf(a) == t ==> !Outdated(stored, a)
  }

  /** In one batch that inserts, a triple's rows collapse to one row, used if any of them is. */
  lemma BatchRow(was: Table, all: seq<KeyRow>, t: Triple) returns (r: KeyRow)
    requires OnlyNewestCounts(was, all) && AllCurrent(Get(was, t), all, t) && HasRow(all, t, false)
    ensures r in SortAndDedup(all) && RowOf(all, t, r)
  {
    var rows := SortAndDedup(all);
    SortAndDedupRepresents(all);
    var a :| a in all && TripleOf(a) == t;
    assert HasKey(rows, a.key);
    r :| r in rows && r.key == a.key;
    forall b | b in all && TripleOf(b) == t
      ensures b.key == a.key
    {
      assert b.key.version == a.key.version;
    }
  }

  /** What one batch does to the row of one triple. */
  lemma BatchStep(was: Table, all: seq<KeyRow>, now: Table, t: Triple) returns (r: KeyRow)
    requires Accepts(was, SortAndDedup(all)) && Stored(was, SortAndDedup(all), now) && AllCurrent(Get(was, t), all, t)
    ensures !HasRow(all, t, false) ==> Get(now, t) == Get(was, t)
    ensures HasRow(all, t, false) ==> RowOf(all, t, r) && Get(now, t) == Some(Upserted(Get(was, t), r))
  {
    if HasRow(all, t, false) {
      BatchInsertsExactly(was, all);
      r := BatchRow(was, all, t);
    } else {
      SortAndDedupRepresents(all);
      assert forall q :: q in SortAndDedup(all) ==> q in all;
      r := *;
    }
  }

  lemma RunStepOf(batches: seq<seq<KeyRow>>, ts: seq<Table>, i: nat, t: Triple) returns (r: KeyRow)
    requires IsRun(batches, ts) && i < |batches| && AllCurrent(Get(ts[i], t), batches[i], t)
    ensures !HasRow(batches[i], t, false) ==> Get(ts[i + 1], t) == Get(ts[i], t)
    ensures HasRow(batches[i], t, false) ==> RowOf(batches[i], t, r) && Get(ts[i + 1], t) == Some(Upserted(Get(ts[i], t), r))
  {
    RunStep(batches, ts, i);
    r := BatchStep(ts[i], batches[i], ts[i + 1], t);
  }

  lemma ExtractedNext(batches: seq<seq<KeyRow>>, n: nat, t: Triple, used: bool)
    requires 0 < n <= |batches|
    ensures Extracted(batches, n, t, used) <==> Extracted(batches, n - 1, t, used) || HasRow(batches[n - 1], t, used)
  {
  }

  ghost predicate HasVersion(all: seq<KeyRow>, row: KeyRow) {
    exists r :: r in all && TripleOf(r) == TripleOf(row) && r.key.version == row.key.version
  }

  /** The version of this row is one that was extracted for its triple. */
  ghost predicate VersionExtracted(batches: seq<seq<KeyRow>>, n: nat, row: KeyRow)
    requires n <= |batches|
  {
    exists i :: 0 <= i < n && HasVersion(batches[i], row)
  }

  lemma NotNewer(batches: seq<seq<KeyRow>>, n: nat, row: KeyRow, r: KeyRow)
    requires InOrder(batches) && n < |batches| && VersionExtracted(batches, n, row)
    requires r in batches[n] && TripleOf(r) == TripleOf(row)
    ensures row.key.version <= r.key.version
  {
    var i :| 0 <= i < n && HasVersion(batches[i], row);
    var q :| q in batches[i] && TripleOf(q) == TripleOf(row) && q.key.version == row.key.version;
    assert NoneNewer(batches[i], batches[n]);
  }

  /** What is stored for a triple says what the first `n` batches had of it. */
  ghost predicate Summarises(batches: seq<seq<KeyRow>>, n: nat, t: Triple, row: Option<KeyRow>)
    requires n <= |batches|
  {
    && (row.Some? <==> Extracted(batches, n, t, false))
    && (row.Some? ==> TripleOf(row.value) == t && VersionExtracted(batches, n, row.value))
    && (row.Some? ==> (row.value.used <==> Extracted(batches, n, t, true)))
  }

  /** In order, nothing that is stored is newer than what comes next. */
  lemma SummaryIsCurrent(batches: seq<seq<KeyRow>>, n: nat, t: Triple, row: Option<KeyRow>)
    requires InOrder(batches) && n < |batches| && Summarises(batches, n, t, row)
    ensures AllCurrent(row, batches[n], t)
  {
    if row.Some? {
      forall r | r in batches[n] && TripleOf(r) == t
        ensures row.value.key.version <= r.key.version
      {
        NotNewer(batches, n, row.value, r);
      }
    }
  }

  lemma SummaryStays(batches: seq<seq<KeyRow>>, n: nat, t: Triple, row: Option<KeyRow>)
    requires n < |batches| && Summarises(batches, n, t, row) && !HasRow(batches[n], t, false)
    ensures Summarises(batches, n + 1, t, row)
  {
    ExtractedNext(batches, n + 1, t, false);
    ExtractedNext(batches, n + 1, t, true);
    assert !HasRow(batches[n], t, true);
  }

  lemma SummaryMoves(batches: seq<seq<KeyRow>>, n: nat, t: Triple, row: Option<KeyRow>, r: KeyRow)
    requires InOrder(batches) && n < |batches| && Summarises(batches, n, t, row) && RowOf(batches[n], t, r)
    ensures Summarises(batches, n + 1, t, Some(Upserted(row, r)))
  {
    ExtractedNext(batches, n + 1, t, false);
    ExtractedNext(batches, n + 1, t, true);
    assert HasRow(batches[n], t, false);
    if row.Some? {
      NotNewer(batches, n, row.value, r);
    }
    assert HasVersion(batches[n], Upserted(row, r));
  }

  /** When batches arrive in version order and every one inserts, the stored flag of a triple is the
      disjunction over all rows ever extracted for it. */
  lemma {:induction false} FlagIsDisjunction(batches: seq<seq<KeyRow>>, ts: seq<Table>, n: nat, t: Triple)
    requires IsRun(batches, ts) && InOrder(batches) && n <= |batches|
    ensures t in ts[n] <==> Extracted(batches, n, t, false)
    ensures t in ts[n] ==> TripleOf(ts[n][t]) == t && VersionExtracted(batches, n, ts[n][t])
    ensures t in ts[n] ==> (ts[n][t].used <==> Extracted(batches, n, t, true))
  {
    TripleIsSummarised(batches, ts, n, t);
  }

  lemma {:induction false} TripleIsSummarised(batches: seq<seq<KeyRow>>, ts: seq<Table>, n: nat, t: Triple)
    requires IsRun(batches, ts) && InOrder(batches) && n <= |batches|
    ensures Summarises(batches, n, t, Get(ts[n], t))
  {
    if n > 0 {
      TripleIsSummarised(batches, ts, n - 1, t);
      SummaryIsCurrent(batches, n - 1, t, Get(ts[n - 1], t));
      var r := RunStepOf(batches, ts, n - 1, t);
      if HasRow(batches[n - 1], t, false) {
        SummaryMoves(batches, n - 1, t, Get(ts[n - 1], t), r);
      } else {
        SummaryStays(batches, n - 1, t, Get(ts[n - 1], t));
      }
    }
  }
}

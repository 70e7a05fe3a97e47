/** The buffering stage of the Parquet pipeline.

    Each table has one buffer.  A batch that would push the buffer past its limit first
    flushes what is there, so a batch is never split over two uploaded objects.  Polling and
    cleanup flush whatever is buffered. */
module ParquetBuffers {
  import opened Prelude

  type Table = string

  datatype Row = Row(version: nat, payload: int)

  datatype Metadata = Metadata(
    startVersion: nat,
    endVersion: nat,
    startTimestamp: Option<int>,
    endTimestamp: Option<int>,
    totalSize: nat)

  /** The rows one batch carries for one table, with their measured size in bytes. */
  datatype Data = Data(rows: seq<Row>, size: nat)

  datatype Buffer = Buffer(rows: seq<Row>, size: nat, meta: Option<Metadata>)

  const EMPTY_BUFFER := Buffer([], 0, None)

  /** `Gap` and `UploadFailed` are returned errors; `MissingMetadata` is the panic of an
      `unwrap` on absent metadata.  Each of them ends the run. */
  datatype Failure = Gap | UploadFailed | MissingMetadata

  datatype Outcome = Done | Failed(failure: Failure)

  /** Metadata of a buffer that takes in a batch; `None` when the versions do not join up. */
  function Extend(held: Option<Metadata>, batch: Metadata): (r: Option<Metadata>) {
    match held
    case None => Some(batch)
    case Some(h) =>
      if h.endVersion + 1 != batch.startVersion then None
      else Some(h.(endVersion := batch.endVersion,
                   totalSize := batch.totalSize,
                   endTimestamp := batch.endTimestamp))
  }

  /** What one batch does to one buffer: the rows uploaded by a size-triggered flush (empty when
      there is none) and the metadata that flush emits. */
  datatype Absorbed = Absorbed(failure: Option<Failure>, buffer: Buffer, uploaded: seq<Row>, flushed: Option<Metadata>)

  function Absorb(b: Buffer, d: Data, m: Metadata, max: nat): (r: Absorbed) {
    var full := b.size + d.size > max;
    if full && b.meta.None? then
      Absorbed(Some(MissingMetadata), b, b.rows, None)
    else
      var base := if full then EMPTY_BUFFER else b;
      var uploaded := if full then b.rows else [];
      var flushed := if full then b.meta else None;
      match Extend(base.meta, m)
      case None => Absorbed(Some(Gap), base, uploaded, flushed)
      case Some(e) => Absorbed(None, Buffer(base.rows + d.rows, base.size + d.size, Some(e)), uploaded, flushed)
  }

  /** The uploader skips an empty buffer, so only non-empty row lists become objects. */
  function AddObject(objects: seq<seq<Row>>, rows: seq<Row>): (r: seq<seq<Row>>) {
    if rows == [] then objects else objects + [rows]
  }

  lemma AddObjectRows(objects: seq<seq<Row>>, rows: seq<Row>)
    ensures Flatten(AddObject(objects, rows)) == Flatten(objects) + rows
  {
    FlattenAppend(objects, rows);
  }

  lemma AddObjectMembers(objects: seq<seq<Row>>, rows: seq<Row>)
    ensures forall o :: o in objects ==> o in AddObject(objects, rows)
    ensures rows == [] || rows in AddObject(objects, rows)
  {
  }

  /** Metadata emitted when a buffer is drained; cleanup overwrites the total with the buffer size. */
  function DrainedMetadata(b: Buffer, cleanup: bool): (r: Metadata)
    requires b.meta.Some?
  {
    if cleanup then b.meta.value.(totalSize := b.size) else b.meta.value
  }

  // ---------------------------------------------------------------- sizes and metadata

  /** A buffer holds metadata exactly when it holds bytes, and no rows without metadata. */
  ghost predicate Coherent(b: Buffer) {
    && (b.meta.Some? <==> b.size > 0)
    && (b.meta.None? ==> b.rows == [])
  }

  /** Coherence survives every batch, and the only way to reach the `unwrap` panic is a batch
      larger than the limit arriving at an empty buffer. */
  lemma AbsorbKeepsCoherent(b: Buffer, d: Data, m: Metadata, max: nat)
    requires Coherent(b) && d.size > 0
    ensures var r := Absorb(b, d, m, max);
            && (r.failure.None? ==> Coherent(r.buffer))
            && (r.failure == Some(MissingMetadata) <==> b.size == 0 && d.size > max)
            && (r.failure == Some(Gap) <==>
                b.size + d.size <= max && b.meta.Some? && b.meta.value.endVersion + 1 != m.startVersion)
            && (d.size <= max && r.failure.None? ==> r.buffer.size <= max)
  {
  }

  /** A batch that is taken in flushes the buffer exactly when the two together pass the limit.  Then
      the whole buffer goes out with its range and the batch is held alone, else the batch is added
      and nothing goes out. */
  lemma FlushesExactly(b: Buffer, d: Data, m: Metadata, max: nat)
    requires Coherent(b) && d.size > 0 && Absorb(b, d, m, max).failure.None?
    ensures var r := Absorb(b, d, m, max);
            && (r.flushed.Some? <==> b.size + d.size > max)
            && (b.size + d.size > max ==> r.uploaded == b.rows && r.flushed == b.meta && r.buffer.rows == d.rows && r.buffer.size == d.size)
            && (b.size + d.size <= max ==> r.uploaded == [] && r.buffer.rows == b.rows + d.rows && r.buffer.size == b.size + d.size)
  {
    assert EMPTY_BUFFER.rows + d.rows == d.rows;
  }

  // ---------------------------------------------------------------- one lane over a whole run

  /** One table's share of a batch. */
  datatype Put = Put(data: Data, meta: Metadata)

  /** What happens to one table's buffer over a run. */
  datatype Event = Batch(put: Put) | Flush(cleanup: bool)

  /** One table's share of the stage: its buffer, the objects uploaded, the metadata emitted. */
  datatype Lane = Lane(buffer: Buffer, objects: seq<seq<Row>>, emitted: seq<Metadata>)

  function LaneStep(l: Lane, e: Event, max: nat): (r: Option<Lane>) {
    match e
    case Batch(p) =>
      var a := Absorb(l.buffer, p.data, p.meta, max);
      if a.failure.Some? then None
      else Some(Lane(a.buffer, AddObject(l.objects, a.uploaded),
                     if a.flushed.Some? then l.emitted + [a.flushed.value] else l.emitted))
    case Flush(cleanup) =>
      if l.buffer.size == 0 then Some(l.(buffer := EMPTY_BUFFER))
      else if l.buffer.meta.None? then None
      else Some(Lane(EMPTY_BUFFER, AddObject(l.objects, l.buffer.rows),
                     l.emitted + [DrainedMetadata(l.buffer, cleanup)]))
  }

  function RunLane(events: seq<Event>, max: nat): (r: Option<Lane>) {
    if events == [] then Some(Lane(EMPTY_BUFFER, [], []))
    else match RunLane(events[..|events| - 1], max)
      case None => None
      case Some(l) => LaneStep(l, events[|events| - 1], max)
  }

  /** The batches of a run, in arrival order. */
  function Puts(events: seq<Event>): (r: seq<Put>) {
    if events == [] then []
    else
      var last := events[|events| - 1];
      Puts(events[..|events| - 1]) + if last.Batch? then [last.put] else []
  }

  function RowsOf(puts: seq<Put>): (r: seq<Row>) {
    if puts == [] then [] else RowsOf(puts[..|puts| - 1]) + puts[|puts| - 1].data.rows
  }

  function SizeOf(puts: seq<Put>): (r: nat) {
    if puts == [] then 0 else SizeOf(puts[..|puts| - 1]) + puts[|puts| - 1].data.size
  }

  lemma RowsOfAppend(puts: seq<Put>, p: Put)
    ensures RowsOf(puts + [p]) == RowsOf(puts) + p.data.rows
    ensures SizeOf(puts + [p]) == SizeOf(puts) + p.data.size
  {
    assert (puts + [p])[..|puts|] == puts;
  }

  /** The version range of a group of batches: from the start of the first to the end of the
      last, with no hole in between. */
  ghost predicate Spans(m: Metadata, puts: seq<Put>) {
    && puts != []
    && m.startVersion == puts[0].meta.startVersion
    && m.startTimestamp == puts[0].meta.startTimestamp
    && m.endVersion == puts[|puts| - 1].meta.endVersion
    && m.endTimestamp == puts[|puts| - 1].meta.endTimestamp
    && forall i :: 0 <= i < |puts| - 1 ==> puts[i].meta.endVersion + 1 == puts[i + 1].meta.startVersion
  }

  /** A flushed group of batches: its range was emitted and its rows form one object.  The total size
      is that of the last batch or, after cleanup, of the group. */
  ghost predicate Published(m: Metadata, g: seq<Put>, objects: seq<seq<Row>>) {
    && Spans(m, g) && (RowsOf(g) == [] || RowsOf(g) in objects)
    && (m.totalSize == g[|g| - 1].meta.totalSize || m.totalSize == SizeOf(g))
  }

  /** A buffer holds exactly the batches `pending`. */
  ghost predicate Holds(b: Buffer, pending: seq<Put>) {
    && b.rows == RowsOf(pending)
    && b.size == SizeOf(pending)
    && (b.size == 0 <==> pending == [])
    && (b.meta.None? <==> pending == [])
    && (b.meta.Some? ==> Spans(b.meta.value, pending) && b.meta.value.totalSize == pending[|pending| - 1].meta.totalSize)
  }

  /** `groups` are the flushed groups of batches, `pending` those buffered since the last flush. */
  ghost predicate Regroups(l: Lane, groups: seq<seq<Put>>, pending: seq<Put>) {
    && |groups| == |l.emitted|
    && (forall i :: 0 <= i < |groups| ==> Published(l.emitted[i], groups[i], l.objects))
    && Holds(l.buffer, pending)
  }

  lemma HoldsAppend(b: Buffer, pending: seq<Put>, p: Put)
    requires Holds(b, pending) && p.data.size > 0
    requires Extend(b.meta, p.meta).Some?
    ensures Holds(Buffer(b.rows + p.data.rows, b.size + p.data.size, Extend(b.meta, p.meta)), pending + [p])
  {
    RowsOfAppend(pending, p);
  }

  lemma PublishMore(l: Lane, groups: seq<seq<Put>>, pending: seq<Put>, m: Metadata, cleared: Lane)
    requires Regroups(l, groups, pending) && pending != []
    requires Spans(m, pending) && (m.totalSize == pending[|pending| - 1].meta.totalSize || m.totalSize == SizeOf(pending))
    requires cleared.objects == AddObject(l.objects, l.buffer.rows) && cleared.emitted == l.emitted + [m]
    ensures forall i :: 0 <= i <= |groups| ==> Published(cleared.emitted[i], (groups + [pending])[i], cleared.objects)
  {
    AddObjectMembers(l.objects, l.buffer.rows);
    forall i | 0 <= i <= |groups|
      ensures Published(cleared.emitted[i], (groups + [pending])[i], cleared.objects)
    {
      if i < |groups| {
        assert Published(l.emitted[i], groups[i], l.objects);
      }
    }
  }

  /** One step keeps the grouping: the new groups and pending batches are the old ones plus
      whatever the step brought in. */
  lemma RegroupStep(l: Lane, e: Event, max: nat, groups: seq<seq<Put>>, pending: seq<Put>) returns (groups': seq<seq<Put>>, pending': seq<Put>)
    requires Regroups(l, groups, pending)
    requires e.Batch? ==> e.put.data.size > 0
    requires LaneStep(l, e, max).Some?
    ensures Regroups(LaneStep(l, e, max).value, groups', pending')
    ensures Flatten(groups') + pending' == Flatten(groups) + pending + if e.Batch? then [e.put] else []
    ensures e.Batch? && SizeOf(pending) + e.put.data.size > max ==> pending != [] && groups' == groups + [pending] && pending' == [e.put]
    ensures e.Batch? && SizeOf(pending) + e.put.data.size <= max ==> groups' == groups && pending' == pending + [e.put]
    ensures e.Flush? ==> groups' == (if pending == [] then groups else groups + [pending]) && pending' == []
    ensures e.Flush? && pending != [] ==>
              |groups'| > 0 && LaneStep(l, e, max).value.emitted[|groups'| - 1].totalSize ==
              if e.cleanup then SizeOf(pending) else pending[|pending| - 1].meta.totalSize
  {
    var after := LaneStep(l, e, max).value;
    FlattenAppend(groups, pending);
    if e.Batch? && l.buffer.size + e.put.data.size > max {
      PublishMore(l, groups, pending, l.buffer.meta.value, after);
      HoldsAppend(EMPTY_BUFFER, [], e.put);
      groups', pending' := groups + [pending], [] + [e.put];
    } else if e.Batch? {
      HoldsAppend(l.buffer, pending, e.put);
      groups', pending' := groups, pending + [e.put];
    } else if l.buffer.size > 0 {
      PublishMore(l, groups, pending, DrainedMetadata(l.buffer, e.cleanup), after);
      groups', pending' := groups + [pending], [];
    } else {
      groups', pending' := groups, pending;
    }
  }

  /** Nothing is split, dropped or reordered: on any run that has not failed, the uploaded
      objects and the emitted version ranges are the received batches regrouped in order, and the
      buffer holds, with their exact range, the batches that came after the last flush. */
  lemma {:induction false} BatchesAreRegrouped(events: seq<Event>, max: nat) returns (groups: seq<seq<Put>>, pending: seq<Put>)
    requires forall e :: e in events && e.Batch? ==> e.put.data.size > 0
    requires RunLane(events, max).Some?
    ensures Regroups(RunLane(events, max).value, groups, pending)
    ensures Flatten(groups) + pending == Puts(events)
  {
    if events == [] {
      groups, pending := [], [];
    } else {
      var n := |events| - 1;
      groups, pending := BatchesAreRegrouped(events[..n], max);
      groups, pending := RegroupStep(RunLane(events[..n], max).value, events[n], max, groups, pending);
    }
  }

  /** The batch that came right after group `i`. */
  function NextPut(groups: seq<seq<Put>>, pending: seq<Put>, i: nat): (r: Option<Put>) {
    var g := if i + 1 < |groups| then groups[i + 1] else pending;
    if g == [] then None else Some(g[0])
  }

  /** No group passes the limit, and each would have with the batch that came after it. */
  ghost predicate FullGroups(groups: seq<seq<Put>>, pending: seq<Put>, max: nat) {
    && SizeOf(pending) <= max
    && forall i :: 0 <= i < |groups| ==>
         SizeOf(groups[i]) <= max && NextPut(groups, pending, i).Some? && SizeOf(groups[i]) + NextPut(groups, pending, i).value.data.size > max
  }

  lemma FullStep(groups: seq<seq<Put>>, pending: seq<Put>, p: Put, max: nat, groups': seq<seq<Put>>, pending': seq<Put>)
    requires FullGroups(groups, pending, max) && (groups != [] ==> pending != []) && p.data.size <= max
    requires if SizeOf(pending) + p.data.size > max then pending != [] && groups' == groups + [pending] && pending' == [p]
             else groups' == groups && pending' == pending + [p]
    ensures FullGroups(groups', pending', max) && pending' != []
  {
    RowsOfAppend(pending, p);
    RowsOfAppend([], p);
    assert [] + [p] == [p];
    forall i | 0 <= i < |groups'|
      ensures SizeOf(groups'[i]) <= max && NextPut(groups', pending', i).Some?
      ensures SizeOf(groups'[i]) + NextPut(groups', pending', i).value.data.size > max
    {
      if i < |groups| {
        assert NextPut(groups', pending', i) == NextPut(groups, pending, i);
      }
    }
  }

  /** Nothing is flushed early: with no poll in between, every flushed group keeps within the limit and
      would have passed it with the batch that came after it. */
  lemma {:induction false} GroupsAreFull(events: seq<Event>, max: nat) returns (groups: seq<seq<Put>>, pending: seq<Put>)
    requires forall e :: e in events ==> e.Batch? && 0 < e.put.data.size <= max
    requires RunLane(events, max).Some?
    ensures Regroups(RunLane(events, max).value, groups, pending) && Flatten(groups) + pending == Puts(events)
    ensures FullGroups(groups, pending, max) && (events != [] ==> pending != []) && (groups != [] ==> pending != [])
  {
    if events == [] {
      groups, pending := [], [];
    } else {
      var n := |events| - 1;
      assert events[n] in events;
      groups, pending := GroupsAreFull(events[..n], max);
      var g, p := RegroupStep(RunLane(events[..n], max).value, events[n], max, groups, pending);
      FullStep(groups, pending, events[n].put, max, g, p);
      groups, pending := g, p;
    }
  }

  /** No empty object is uploaded. */
  lemma {:induction false} NoEmptyObjects(events: seq<Event>, max: nat)
    requires RunLane(events, max).Some?
    ensures forall o :: o in RunLane(events, max).value.objects ==> o != []
  {
    if events != [] {
      NoEmptyObjects(events[..|events| - 1], max);
    }
  }

  lemma RowStep(l: Lane, e: Event, max: nat)
    requires Coherent(l.buffer)
    requires e.Batch? ==> e.put.data.size > 0
    requires LaneStep(l, e, max).Some?
    ensures var after := LaneStep(l, e, max).value;
            && Coherent(after.buffer)
            && Flatten(after.objects) + after.buffer.rows
               == Flatten(l.objects) + l.buffer.rows + if e.Batch? then e.put.data.rows else []
  {
    var after, rows := LaneStep(l, e, max).value, Flatten(l.objects);
    AddObjectRows(l.objects, l.buffer.rows);
    match e
    case Batch(p) =>
      if l.buffer.size + p.data.size > max {
        assert after.buffer.rows == p.data.rows;
      } else {
        assert after.objects == l.objects;
        assert rows + (l.buffer.rows + p.data.rows) == rows + l.buffer.rows + p.data.rows;
      }
    case Flush(_) =>
      assert after.buffer.rows == [] && rows + l.buffer.rows + [] == rows + l.buffer.rows;
  }

  /** Row conservation: uploaded rows followed by buffered rows are the received rows, in order. */
  lemma {:induction false} RowConservation(events: seq<Event>, max: nat)
    requires forall e :: e in events && e.Batch? ==> e.put.data.size > 0
    requires RunLane(events, max).Some?
    ensures var l := RunLane(events, max).value;
            Coherent(l.buffer) && Flatten(l.objects) + l.buffer.rows == RowsOf(Puts(events))
  {
    if events != [] {
      var n := |events| - 1;
      RowConservation(events[..n], max);
      RowStep(RunLane(events[..n], max).value, events[n], max);
      if events[n].Batch? {
        RowsOfAppend(Puts(events[..n]), events[n].put);
      } else {
        assert Puts(events) == Puts(events[..n]);
      }
    }
  }

  // ---------------------------------------------------------------- the stage itself

  function BufferOf(buffers: map<Table, Buffer>, t: Table): (r: Buffer) {
    if t in buffers then buffers[t] else EMPTY_BUFFER
  }

  function ObjectsOf(uploads: map<Table, seq<seq<Row>>>, t: Table): (r: seq<seq<Row>>) {
    if t in uploads then uploads[t] else []
  }

  /** What a batch does to the buffer of table `t`. */
  function AbsorbAt(buffers: map<Table, Buffer>, data: map<Table, Data>, m: Metadata, max: nat, t: Table): (r: Absorbed)
    requires t in data
  {
    Absorb(BufferOf(buffers, t), data[t], m, max)
  }

  /** `flushed` is the metadata a batch emits for the tables `done`: those whose buffers it flushed. */
  ghost predicate FlushedBy(flushed: map<Table, Metadata>, buffers: map<Table, Buffer>, data: map<Table, Data>, m: Metadata, max: nat, done: set<Table>) {
    && (forall t :: t in flushed ==> t in data && t in done && AbsorbAt(buffers, data, m, max, t).flushed == Some(flushed[t]))
    && (forall t :: t in data && t in done && AbsorbAt(buffers, data, m, max, t).flushed.Some? ==> t in flushed)
  }

  /** `flushed` is the metadata a poll or cleanup emits for the tables `done`. */
  ghost predicate DrainedBy(flushed: map<Table, Metadata>, buffers: map<Table, Buffer>, cleanup: bool, done: set<Table>) {
    && (forall t :: t in flushed ==>
          t in done && t in buffers && buffers[t].size > 0 && buffers[t].meta.Some? && flushed[t] == DrainedMetadata(buffers[t], cleanup))
    && (forall t :: t in done && t in buffers && buffers[t].size > 0 && buffers[t].meta.Some? ==> t in flushed)
  }

  /** Only table `t` of the bucket changes, by one object. */
  ghost predicate OneStored(was: map<Table, seq<seq<Row>>>, now: map<Table, seq<seq<Row>>>, t: Table, rows: seq<Row>) {
    && ObjectsOf(now, t) == AddObject(ObjectsOf(was, t), rows)
    && forall u :: u != t ==> ObjectsOf(now, u) == ObjectsOf(was, u)
  }

  /** The flushes that a batch triggers for the tables `stored` have reached the bucket. */
  ghost predicate FlushesStored(was: map<Table, seq<seq<Row>>>, now: map<Table, seq<seq<Row>>>,
                                buffers: map<Table, Buffer>, data: map<Table, Data>, m: Metadata, max: nat, stored: set<Table>) {
    && (forall t :: t in data && t in stored ==> ObjectsOf(now, t) == AddObject(ObjectsOf(was, t), AbsorbAt(buffers, data, m, max, t).uploaded))
    && (forall t :: t !in data || t !in stored ==> ObjectsOf(now, t) == ObjectsOf(was, t))
  }

  /** The drained rows of the tables `stored` have reached the bucket. */
  ghost predicate DrainsStored(was: map<Table, seq<seq<Row>>>, now: map<Table, seq<seq<Row>>>, buffers: map<Table, Buffer>, stored: set<Table>) {
    && (forall t :: t in stored && t in buffers && buffers[t].size > 0 ==> ObjectsOf(now, t) == AddObject(ObjectsOf(was, t), buffers[t].rows))
    && (forall t :: t !in stored || t !in buffers || buffers[t].size == 0 ==> ObjectsOf(now, t) == ObjectsOf(was, t))
  }

  /** The tables `done` have taken in the batch and the others are as before; `flushed` is what
      those tables emitted. */
  ghost predicate BatchAbsorbed(was: map<Table, Buffer>, now: map<Table, Buffer>, flushed: map<Table, Metadata>,
                                data: map<Table, Data>, m: Metadata, max: nat, done: set<Table>) {
    && (forall t :: t in data && t in done ==> AbsorbAt(was, data, m, max, t).failure.None? && BufferOf(now, t) == AbsorbAt(was, data, m, max, t).buffer)
    && (forall t :: t !in data || t !in done ==> BufferOf(now, t) == BufferOf(was, t))
    && FlushedBy(flushed, was, data, m, max, done)
  }

  /** A batch can fail in this way at table `t`; an upload can only fail where rows are flushed. */
  ghost predicate FailsAt(f: Failure, buffers: map<Table, Buffer>, data: map<Table, Data>, m: Metadata, max: nat, t: Table) {
    t in data && if f == UploadFailed then AbsorbAt(buffers, data, m, max, t).uploaded != []
                 else AbsorbAt(buffers, data, m, max, t).failure == Some(f)
  }

  lemma NothingAbsorbed(buffers: map<Table, Buffer>, uploads: map<Table, seq<seq<Row>>>, data: map<Table, Data>, m: Metadata, max: nat)
    ensures BatchAbsorbed(buffers, buffers, map[], data, m, max, {})
    ensures FlushesStored(uploads, uploads, buffers, data, m, max, {})
  {
  }

  lemma AbsorbOne(was: map<Table, Buffer>, mid: map<Table, Buffer>, now: map<Table, Buffer>,
                  flushed: map<Table, Metadata>, flushed': map<Table, Metadata>,
                  data: map<Table, Data>, m: Metadata, max: nat, done: set<Table>, t: Table)
    requires BatchAbsorbed(was, mid, flushed, data, m, max, done)
    requires t in data && t !in done && AbsorbAt(was, data, m, max, t).failure.None?
    requires now == mid[t := AbsorbAt(was, data, m, max, t).buffer]
    requires flushed' == var f := AbsorbAt(was, data, m, max, t).flushed; if f.Some? then flushed[t := f.value] else flushed
    ensures BatchAbsorbed(was, now, flushed', data, m, max, done + {t})
  {
  }

  lemma StoreOneFlush(was: map<Table, seq<seq<Row>>>, mid: map<Table, seq<seq<Row>>>, now: map<Table, seq<seq<Row>>>,
                      buffers: map<Table, Buffer>, data: map<Table, Data>, m: Metadata, max: nat, stored: set<Table>, t: Table)
    requires FlushesStored(was, mid, buffers, data, m, max, stored)
    requires t in data && t !in stored && OneStored(mid, now, t, AbsorbAt(buffers, data, m, max, t).uploaded)
    ensures FlushesStored(was, now, buffers, data, m, max, stored + {t})
  {
  }

  lemma StoreOneDrain(was: map<Table, seq<seq<Row>>>, mid: map<Table, seq<seq<Row>>>, now: map<Table, seq<seq<Row>>>,
                      buffers: map<Table, Buffer>, stored: set<Table>, t: Table)
    requires DrainsStored(was, mid, buffers, stored)
    requires t in buffers && t !in stored
    requires if buffers[t].size > 0 then OneStored(mid, now, t, buffers[t].rows) else now == mid
    ensures DrainsStored(was, now, buffers, stored + {t})
  {
  }

  class ParquetBufferStep {
    var buffers: map<Table, Buffer>
    /** The bucket: for each table the objects written so far. */
    var uploads: map<Table, seq<seq<Row>>>
    const maxSize: nat

    constructor (maxSize: nat)
      ensures buffers == map[] && uploads == map[] && this.maxSize == maxSize
    {
      buffers, uploads := map[], map[];
      this.maxSize := maxSize;
    }

    /** An upload either stores the object durably or fails and stores nothing. */
    method UploadBuffer(t: Table, rows: seq<Row>) returns (ok: bool)
      modifies this`uploads
      ensures rows == [] ==> ok
      ensures if ok then OneStored(old(uploads), uploads, t, rows) else uploads == old(uploads)
    {
      if rows == [] {
        return true;
      }
      ok := *;
      if ok {
        uploads := uploads[t := ObjectsOf(uploads, t) + [rows]];
      }
    }

    /** Adds one table's rows to its buffer, flushing first when the limit would be passed.
        `stored` says whether the flush, if there was one, reached the bucket. */
    method UploadBufferAppend(t: Table, d: Data, m: Metadata) returns (r: Outcome, flushed: Option<Metadata>, ghost stored: bool)
      modifies this
      ensures var a := Absorb(BufferOf(old(buffers), t), d, m, maxSize);
              && (if stored then OneStored(old(uploads), uploads, t, a.uploaded) else uploads == old(uploads))
              && (r.Done? ==> a.failure.None? && stored && flushed == a.flushed && buffers == old(buffers)[t := a.buffer])
              && (r.Failed? && r.failure != UploadFailed ==> a.failure == Some(r.failure))
              && (r == Failed(UploadFailed) ==> a.uploaded != [])
      ensures r.Done? ==> (flushed.Some? <==> BufferOf(old(buffers), t).size + d.size > maxSize)
    {
      var buffer := BufferOf(buffers, t);
      flushed, stored := None, true;
      if buffer.size + d.size > maxSize {
        var ok := UploadBuffer(t, buffer.rows);
        if !ok {
          stored := false;
          return Failed(UploadFailed), None, stored;
        }
        if buffer.meta.None? {
          return Failed(MissingMetadata), None, stored;
        }
        flushed := buffer.meta;
        buffer := EMPTY_BUFFER;
      }
      buffer := buffer.(rows := buffer.rows + d.rows, size := buffer.size + d.size);
      var meta := Extend(buffer.meta, m);
      if meta.None? {
        return Failed(Gap), None, stored;
      }
      buffer := buffer.(meta := meta);
      buffers := buffers[t := buffer];
      return Done, flushed, stored;
    }

    /** One batch for all its tables, in whatever order the map yields them.  `stored` names the
        tables whose flush, if any, reached the bucket before the method returned. */
    method Process(data: map<Table, Data>, m: Metadata) returns (r: Outcome, flushed: map<Table, Metadata>, ghost stored: set<Table>)
      modifies this
      ensures stored <= data.Keys
      ensures FlushesStored(old(uploads), uploads, old(buffers), data, m, maxSize, stored)
      ensures r.Done? ==> stored == data.Keys && BatchAbsorbed(old(buffers), buffers, flushed, data, m, maxSize, data.Keys)
      ensures r.Failed? ==> exists t :: FailsAt(r.failure, old(buffers), data, m, maxSize, t)
    {
      var todo := data.Keys;
      flushed, stored := map[], {};
      NothingAbsorbed(buffers, uploads, data, m, maxSize);
      while todo != {}
        invariant todo <= data.Keys && stored == data.Keys - todo
        invariant BatchAbsorbed(old(buffers), buffers, flushed, data, m, maxSize, stored)
        invariant FlushesStored(old(uploads), uploads, old(buffers), data, m, maxSize, stored)
        decreases todo
      {
        var t :| t in todo;
        ghost var kept;
        r, flushed, kept := ProcessTable(t, data, m, flushed, old(buffers), old(uploads), stored);
        stored := if kept then stored + {t} else stored;
        if r.Failed? {
          assert FailsAt(r.failure, old(buffers), data, m, maxSize, t);
          return;
        }
        todo := todo - {t};
      }
      assert stored == data.Keys;
      r := Done;
    }

    /** One turn of the loop over the tables of a batch. */
    method ProcessTable(t: Table, data: map<Table, Data>, m: Metadata, flushed: map<Table, Metadata>,
                        ghost was: map<Table, Buffer>, ghost bucket: map<Table, seq<seq<Row>>>, ghost done: set<Table>)
      returns (r: Outcome, flushed': map<Table, Metadata>, ghost kept: bool)
      requires t in data && t !in done
      requires BatchAbsorbed(was, buffers, flushed, data, m, maxSize, done)
      requires FlushesStored(bucket, uploads, was, data, m, maxSize, done)
      modifies this
      ensures FlushesStored(bucket, uploads, was, data, m, maxSize, if kept then done + {t} else done)
      ensures r.Done? ==> kept && BatchAbsorbed(was, buffers, flushed', data, m, maxSize, done + {t})
      ensures r.Failed? ==> FailsAt(r.failure, was, data, m, maxSize, t)
    {
      assert BufferOf(buffers, t) == BufferOf(was, t);
      var f;
      r, f, kept := UploadBufferAppend(t, data[t], m);
      flushed' := if f.Some? then flushed[t := f.value] else flushed;
      if kept {
        StoreOneFlush(bucket, old(uploads), uploads, was, data, m, maxSize, done, t);
      }
      if r.Done? {
        AbsorbOne(was, old(buffers), buffers, flushed, flushed', data, m, maxSize, done, t);
      }
    }

    /** Uploads and forgets every buffer; `cleanup` selects the variant that runs at the end. */
    method Drain(cleanup: bool) returns (r: Outcome, flushed: map<Table, Metadata>, ghost stored: set<Table>)
      modifies this
      ensures stored <= old(buffers).Keys
      ensures DrainsStored(old(uploads), uploads, old(buffers), stored)
      ensures r.Done? ==> stored == old(buffers).Keys && buffers == map[]
      ensures r.Done? ==> DrainedBy(flushed, old(buffers), cleanup, old(buffers).Keys)
      ensures r.Done? ==> forall t :: t in old(buffers) && old(buffers)[t].size > 0 ==> old(buffers)[t].meta.Some?
      ensures r == Failed(MissingMetadata) ==> exists t :: t in old(buffers) && old(buffers)[t].size > 0 && old(buffers)[t].meta.None?
      ensures r == Failed(UploadFailed) ==> exists t :: t in old(buffers) && old(buffers)[t].size > 0 && old(buffers)[t].rows != []
      ensures r != Failed(Gap)
    {
      var drained := buffers;
      var todo := drained.Keys;
      flushed, stored := map[], {};
      while todo != {}
        invariant todo <= drained.Keys && stored == drained.Keys - todo
        invariant forall t :: t in stored && drained[t].size > 0 ==> drained[t].meta.Some?
        invariant DrainsStored(old(uploads), uploads, drained, stored)
        invariant DrainedBy(flushed, drained, cleanup, stored)
        decreases todo
      {
        var t :| t in todo;
        ghost var kept;
        r, kept := DrainTable(t, drained, old(uploads), stored);
        if r.Failed? {
          stored := if kept then stored + {t} else stored;
          return;
        }
        if drained[t].size > 0 {
          flushed := flushed[t := DrainedMetadata(drained[t], cleanup)];
        }
        todo, stored := todo - {t}, stored + {t};
      }
      assert stored == drained.Keys;
      buffers := map[];
      r := Done;
    }

    /** One turn of the loop over the buffers being drained. */
    method DrainTable(t: Table, drained: map<Table, Buffer>, ghost bucket: map<Table, seq<seq<Row>>>, ghost done: set<Table>)
      returns (r: Outcome, ghost kept: bool)
      requires t in drained && t !in done
      requires DrainsStored(bucket, uploads, drained, done)
      modifies this`uploads
      ensures DrainsStored(bucket, uploads, drained, if kept then done + {t} else done)
      ensures r.Done? ==> kept && (drained[t].size > 0 ==> drained[t].meta.Some?)
      ensures r == Failed(MissingMetadata) ==> drained[t].size > 0 && drained[t].meta.None?
      ensures r == Failed(UploadFailed) ==> drained[t].size > 0 && drained[t].rows != []
      ensures r != Failed(Gap)
    {
      r, kept := Done, true;
      if drained[t].size > 0 {
        var ok := UploadBuffer(t, drained[t].rows);
        if !ok {
          kept := false;
          return Failed(UploadFailed), kept;
        }
        if drained[t].meta.None? {
          r := Failed(MissingMetadata);
        }
      }
      StoreOneDrain(bucket, old(uploads), uploads, drained, done, t);
    }
  }
}

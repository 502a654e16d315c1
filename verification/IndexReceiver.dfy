/**
 The receiving end of index replication: the stored cursor, the staging area
 for a snapshot in progress and the mirror of the peer's table.

 Each frame handler is given as a function from state to state, and the class
 runs the handlers in place and is proved to follow those functions. Every
 store transaction may fail, without effect; the flags say which ones do.
 */
module IndexReceiver {
  import opened Reconcile
  import opened IndexLog

  datatype Cursor = Cursor(epoch: string, applied: nat, snapshotId: string, snapshotBatch: nat)

  datatype Begin = Begin(id: string, epoch: string, high: nat)

  datatype Entry = Entry(seqno: nat, row: FileInfo)

  datatype Frame =
    | SnapshotBegin(begin: Begin)
    | SnapshotBatch(id: string, batch: nat, files: seq<FileInfo>)
    | SnapshotEnd(id: string, count: nat)
    | DeltaBatch(epoch: string, from: nat, to: nat, entries: seq<Entry>)

  datatype Reply =
    | Silent
    | Violation
    | Resync(cursor: Cursor)
    | Ack(epoch: string, applied: nat, snapshotId: string)

  datatype Receiver = Receiver(cursor: Cursor, begin: Option<Begin>, staging: map<string, Table>, mirror: Table)

  function Staged(staging: map<string, Table>, id: string): Table {
    if id in staging then staging[id] else map[]
  }

  function RowsOf(entries: seq<Entry>): (rows: seq<FileInfo>)
    ensures |rows| == |entries| && forall i :: 0 <= i < |rows| ==> rows[i] == entries[i].row
  {
    seq(|entries|, i requires 0 <= i < |entries| => entries[i].row)
  }

  /** The range checks a delta passes before anything is applied. */
  predicate WellFormedDelta(f: Frame)
    requires f.DeltaBatch?
  {
    && f.entries != [] && f.from > 0 && f.to >= f.from && f.to - f.from + 1 == |f.entries|
    && forall i :: 0 <= i < |f.entries| ==> f.entries[i].seqno == f.from + i
  }

  /** What the store did for the frame being handled: storing rows, writing and reading the cursor. */
  datatype StoreOutcome = StoreOutcome(rowsOk: bool, cursorOk: bool, readOk: bool)

  // --- The handlers -------------------------------------------------------------------

  /** What a read of the stored cursor gives when it finds nothing or fails. */
  const NO_CURSOR := Cursor("", 0, "", 0)

  function ReadCursor(r: Receiver, readOk: bool): Cursor { if readOk then r.cursor else NO_CURSOR }

  /** A snapshot starts: the cursor is reset to sequence 0, the mirror is kept. A failed write is ignored. */
  function OnBegin(r: Receiver, b: Begin, cursorOk: bool): (Receiver, Reply) {
    if b.id == "" then (r, Violation)
    else (r.(begin := Some(b), cursor := if cursorOk then Cursor(b.epoch, 0, b.id, 0) else r.cursor), Silent)
  }

  function StageBatch(staging: map<string, Table>, id: string, batch: nat, files: seq<FileInfo>): map<string, Table> {
    var kept := if batch == 0 then map k | k in staging && k == id :: staging[k] else staging;
    kept[id := ApplyRows(Staged(kept, id), files)]
  }

  function OnBatch(r: Receiver, id: string, batch: nat, files: seq<FileInfo>, o: StoreOutcome): (Receiver, Reply) {
    if r.begin.None? || r.begin.value.id != id then (r, Violation)
    else
      var c := ReadCursor(r, o.readOk);
      if batch < c.snapshotBatch then (r, Silent)
      else if batch != c.snapshotBatch then (r, Resync(c))
      else if !o.rowsOk then (r, Silent)
      else (r.(staging := StageBatch(r.staging, id, batch, files),
               cursor := if o.cursorOk then c.(snapshotBatch := batch + 1) else r.cursor), Silent)
  }

  function OnEnd(r: Receiver, id: string, count: nat, o: StoreOutcome): (Receiver, Reply) {
    if r.begin.None? || r.begin.value.id != id then (r, Silent)
    else
      var b := r.begin.value;
      if ReadCursor(r, o.readOk).snapshotBatch == count && o.rowsOk
      then (Receiver(Cursor(b.epoch, b.high, "", 0), None, map[], Staged(r.staging, id)), Ack(b.epoch, b.high, id))
      else (r.(begin := None), Silent)
  }

  function OnDelta(r: Receiver, f: Frame, o: StoreOutcome): (Receiver, Reply)
    requires f.DeltaBatch?
  {
    if !WellFormedDelta(f) then (r, Violation)
    else if r.cursor.epoch == f.epoch && f.from == r.cursor.applied + 1 && o.rowsOk
    then (r.(mirror := ApplyRows(r.mirror, RowsOf(f.entries)), cursor := r.cursor.(applied := f.to)),
          Ack(f.epoch, f.to, ""))
    else (r, Resync(ReadCursor(r, o.readOk)))
  }

  /** An index update outside the sequenced stream stores its rows whatever the cursor says. */
  function OnUpdate(r: Receiver, rows: seq<FileInfo>): Receiver {
    r.(mirror := ApplyRows(r.mirror, rows))
  }

  function Handle(r: Receiver, f: Frame, o: StoreOutcome): (Receiver, Reply) {
    match f
    case SnapshotBegin(b) => OnBegin(r, b, o.cursorOk)
    case SnapshotBatch(id, batch, files) => OnBatch(r, id, batch, files, o)
    case SnapshotEnd(id, count) => OnEnd(r, id, count, o)
    case DeltaBatch(_, _, _, _) => OnDelta(r, f, o)
  }

  // --- What the sender is told ------------------------------------------------------------

  /** The delta is in this epoch and starts right after what was applied. */
  predicate Continues(r: Receiver, f: Frame)
    requires f.DeltaBatch?
  {
    f.epoch == r.cursor.epoch && f.from == r.cursor.applied + 1
  }

  /**
   A well-formed delta is acknowledged up to its end if and only if it continues
   the cursor and its rows were stored. Any other changes nothing, and the sender
   is told the cursor to go on from.
   */
  lemma DeltaIsAckedIff(r: Receiver, f: Frame, o: StoreOutcome)
    requires f.DeltaBatch? && WellFormedDelta(f)
    ensures var (r', reply) := Handle(r, f, o);
            && (reply == Ack(f.epoch, f.to, "") <==> Continues(r, f) && o.rowsOk)
            && (reply.Ack? ==> r'.cursor == r.cursor.(applied := f.to))
            && (!reply.Ack? ==> r' == r && reply == Resync(if o.readOk then r.cursor else Cursor("", 0, "", 0)))
  {
  }

  /** A batch past the stored count is answered with the cursor and not staged, and one before it is dropped. */
  lemma BatchOutOfOrder(r: Receiver, id: string, batch: nat, files: seq<FileInfo>, o: StoreOutcome)
    requires r.begin.Some? && r.begin.value.id == id && o.readOk && batch != r.cursor.snapshotBatch
    ensures Handle(r, SnapshotBatch(id, batch, files), o)
         == (r, if batch > r.cursor.snapshotBatch then Resync(r.cursor) else Silent)
  {
  }

  /** A delta passes the range checks exactly when its entries are one or more consecutive sequences from its start to its end. */
  lemma DeltaIsRefusedIff(r: Receiver, f: Frame, o: StoreOutcome)
    requires f.DeltaBatch?
    ensures var (r', reply) := Handle(r, f, o);
            && (reply == Violation <==> !(&& f.from >= 1 && |f.entries| >= 1 && f.to == f.from + |f.entries| - 1
                                          && forall i :: 0 <= i < |f.entries| ==> f.entries[i].seqno == f.from + i))
            && (reply == Violation ==> r' == r)
  {
  }

  /** An end frame for the snapshot in progress closes it, whether it is committed or dropped, and any other does nothing. */
  lemma EndClosesTheSnapshot(r: Receiver, id: string, count: nat, o: StoreOutcome)
    ensures var (r', reply) := Handle(r, SnapshotEnd(id, count), o);
            if r.begin.Some? && r.begin.value.id == id
            then r'.begin.None? && (reply.Ack? <==> o.rowsOk && (if o.readOk then r.cursor.snapshotBatch else 0) == count)
            else r' == r && reply == Silent
  {
  }

  /** A frame whose rows the store did not take changes neither the mirror nor the staging, and no position but a started snapshot's. */
  lemma FailedStoreKeepsRows(r: Receiver, f: Frame, o: StoreOutcome)
    requires !o.rowsOk
    ensures var (r', reply) := Handle(r, f, o);
            && r'.mirror == r.mirror && r'.staging == r.staging && !reply.Ack?
            && (!f.SnapshotBegin? ==> r'.cursor == r.cursor)
  {
  }

  /** The mirror changes only with the position, all at once: by a delta that continues it, or by a whole snapshot. */
  lemma MirrorMovesWithTheCursor(r: Receiver, f: Frame, o: StoreOutcome)
    ensures var (r', reply) := Handle(r, f, o);
            if reply.Ack? then
              && r'.cursor.epoch == reply.epoch && r'.cursor.applied == reply.applied
              && (if f.DeltaBatch? then Continues(r, f) && r'.mirror == ApplyRows(r.mirror, RowsOf(f.entries)) && reply.applied == f.to
                  else f.SnapshotEnd? && r.begin.Some? && f.id == r.begin.value.id && r'.begin.None? && r'.staging == map[]
                       && reply.epoch == r.begin.value.epoch && reply.applied == r.begin.value.high && reply.snapshotId == f.id
                       && r'.mirror == Staged(r.staging, f.id))
            else r'.mirror == r.mirror
  {
  }

  /** A snapshot's first batch drops what other snapshots had staged, and a later one touches its own staging only. */
  lemma StagingOfOthers(r: Receiver, batch: nat, files: seq<FileInfo>, o: StoreOutcome, k: string)
    requires r.begin.Some? && batch == ReadCursor(r, o.readOk).snapshotBatch && o.rowsOk
    ensures var id := r.begin.value.id;
            var r' := Handle(r, SnapshotBatch(id, batch, files), o).0;
            var staging := r'.staging;
            && r'.begin == r.begin && r'.mirror == r.mirror
            && r'.cursor == (if o.cursorOk then ReadCursor(r, o.readOk).(snapshotBatch := batch + 1) else r.cursor)
            && id in staging && staging[id] == ApplyRows(Staged(r.staging, id), files)
            && (k != id ==> (k in staging <==> k in r.staging && batch > 0) && (k in staging ==> staging[k] == r.staging[k]))
  {
  }

  // --- The session ----------------------------------------------------------------------

  class Session {
    var cursor: Cursor
    var begin: Option<Begin>
    var staging: map<string, Table>
    var mirror: Table

    ghost function View(): Receiver
      reads this
    {
      Receiver(cursor, begin, staging, mirror)
    }

    constructor (stored: Cursor, staged: map<string, Table>, files: Table)
      ensures View() == Receiver(stored, None, staged, files)
    {
      cursor, begin, staging, mirror := stored, None, staged, files;
    }

    method HandleBegin(b: Begin, cursorOk: bool) returns (reply: Reply)
      modifies this
      ensures (View(), reply) == OnBegin(old(View()), b, cursorOk)
    {
      if b.id == "" { return Violation; }
      begin := Some(b);
      if cursorOk { cursor := Cursor(b.epoch, 0, b.id, 0); }
      reply := Silent;
    }

    method HandleBatch(id: string, batch: nat, files: seq<FileInfo>, o: StoreOutcome) returns (reply: Reply)
      modifies this
      ensures (View(), reply) == OnBatch(old(View()), id, batch, files, o)
    {
      if begin.None? || begin.value.id != id { return Violation; }
      var c := if o.readOk then cursor else NO_CURSOR;
      if batch < c.snapshotBatch { return Silent; }
      if batch != c.snapshotBatch { return Resync(c); }
      if o.rowsOk {
        StageSnapshotBatch(id, batch, files);
        c := c.(snapshotBatch := c.snapshotBatch + 1);
        if o.cursorOk { cursor := c; }
      }
      reply := Silent;
    }

    method StageSnapshotBatch(id: string, batch: nat, files: seq<FileInfo>)
      modifies this`staging
      ensures staging == StageBatch(old(staging), id, batch, files)
    {
      if batch == 0 {
        staging := map k | k in staging && k == id :: staging[k];
      }
      var rows := Staged(staging, id);
      ghost var before := rows;
      for i := 0 to |files|
        invariant rows == ApplyRows(before, files[..i])
      {
        rows := rows[files[i].relpath := files[i]];
        assert files[..i + 1][..i] == files[..i];
      }
      assert files[..|files|] == files;
      staging := staging[id := rows];
    }

    method HandleEnd(id: string, count: nat, o: StoreOutcome) returns (reply: Reply)
      modifies this
      ensures (View(), reply) == OnEnd(old(View()), id, count, o)
    {
      reply := Silent;
      if begin.Some? && begin.value.id == id {
        var b := begin.value;
        begin := None;
        var c := if o.readOk then cursor else NO_CURSOR;
        if c.snapshotBatch == count && o.rowsOk {
          mirror := Staged(staging, id);
          staging := map[];
          cursor := Cursor(b.epoch, b.high, "", 0);
          reply := Ack(b.epoch, b.high, id);
        }
      }
    }

    method HandleDelta(f: Frame, o: StoreOutcome) returns (reply: Reply)
      requires f.DeltaBatch?
      modifies this
      ensures (View(), reply) == OnDelta(old(View()), f, o)
    {
      if !WellFormedDelta(f) { return Violation; }
      if cursor.epoch != f.epoch || f.from != cursor.applied + 1 || !o.rowsOk {
        return Resync(if o.readOk then cursor else NO_CURSOR);
      }
      var rows := RowsOf(f.entries);
      for i := 0 to |rows|
        invariant mirror == ApplyRows(old(mirror), rows[..i])
        invariant cursor == old(cursor) && begin == old(begin) && staging == old(staging)
      {
        mirror := mirror[rows[i].relpath := rows[i]];
        assert rows[..i + 1][..i] == rows[..i];
      }
      assert rows[..|rows|] == rows;
      cursor := cursor.(applied := f.to);
      reply := Ack(f.epoch, f.to, "");
    }

    method HandleUpdate(rows: seq<FileInfo>)
      modifies this`mirror
      ensures View() == OnUpdate(old(View()), rows)
    {
      for i := 0 to |rows|
        invariant mirror == ApplyRows(old(mirror), rows[..i])
      {
        mirror := mirror[rows[i].relpath := rows[i]];
        assert rows[..i + 1][..i] == rows[..i];
      }
      assert rows[..|rows|] == rows;
    }
  }
}

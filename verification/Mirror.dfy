/**
 Index replication as a protocol: a sender whose journalled table keeps
 changing, a receiver that mirrors it, and a network between them that may
 lose, delay, repeat and reorder every frame ever sent.

 A snapshot is fuzzy: its high-water mark is read before its rows, with any
 number of writes in between, so the mirror may be ahead of the cursor and a
 replayed delta may move a row back. Still, whenever the cursor reaches the
 sender's high-water mark the mirror is the sender's table, row for row,
 apart from rows left over from an earlier epoch.

 Any store write or cursor read of the receiver may fail. Two steps can break
 the agreement: a snapshot whose first cursor write is lost, and an update that
 bypasses the cursor. `Harmless` says exactly when they do not.
 */
module Mirror {
  import opened Reconcile
  import opened IndexLog
  import opened IndexReceiver

  /** One snapshot as sent: mark read at `high`, rows listed when the journal was `taken` long. */
  datatype Snapshot = Snapshot(high: nat, taken: nat, batches: seq<seq<FileInfo>>)

  /** The newest index endpoint the sending session has fully written. */
  datatype Sent = Sent(high: nat, snapshotId: string)

  datatype World = World(
    epoch: string,
    log: seq<FileInfo>,
    pruned: nat,                    // journal entries up to here have been dropped
    marks: set<nat>,                // high-water marks answers in progress have read
    snaps: map<string, Snapshot>,
    frames: set<Frame>,             // every frame ever sent
    recv: Receiver,
    leftover: Table,                // what the mirror held before this epoch
    anchored: bool,                 // a snapshot of this epoch has been committed
    acks: set<Reply>,               // every acknowledgement ever sent back
    committed: set<nat>,            // positions the receiver has committed
    sent: Option<Sent>,
    written: set<nat>,              // endpoints this sending session has fully written
    outgoing: Cursor)               // the sender's record of what the peer has

  datatype Step =
    | Write(row: FileInfo)
    | Prune(upto: nat)
    | ReadMark
    | ReadRows(id: string, high: nat, batches: seq<seq<FileInfo>>)
    | SendDelta(first: nat, last: nat)
    | Deliver(frame: Frame, outcome: StoreOutcome)
    | Update(rows: seq<FileInfo>)                 // rows of some moment, outside the sequenced stream
    | RestartReceiver
    | FrameWritten(frame: Frame)
    | DeliverAck(ack: Reply)
    | RestartSender

  ghost predicate Initial(w: World) {
    && w.epoch != ""
    && w.log == [] && w.pruned == 0 && w.marks == {} && w.snaps == map[] && w.frames == {}
    && w.recv.begin == None && w.recv.cursor.epoch != w.epoch && w.recv.mirror == w.leftover && !w.anchored
    && w.acks == {} && w.committed == {} && w.sent == None && w.written == {} && w.outgoing.epoch != w.epoch
  }

  /** `batches` lists exactly the rows of `t`. */
  ghost predicate IsListing(batches: seq<seq<FileInfo>>, t: Table) {
    && (forall k, f :: 0 <= k < |batches| && f in batches[k] ==> f.relpath in t && t[f.relpath] == f)
    && (forall p :: p in t ==> exists k :: 0 <= k < |batches| && t[p] in batches[k])
  }

  /** No path is in two batches. */
  ghost predicate OnceEach(batches: seq<seq<FileInfo>>) {
    forall j, k, f, g :: 0 <= j < k < |batches| && f in batches[j] && g in batches[k] ==> f.relpath != g.relpath
  }

  function SliceEntries(log: seq<FileInfo>, first: nat, last: nat): (es: seq<Entry>)
    requires 1 <= first <= last <= |log|
    ensures |es| == last - first + 1
    ensures forall i :: 0 <= i < |es| ==> es[i] == Entry(first + i, log[first + i - 1])
  {
    seq(last - first + 1, i requires 0 <= i < last - first + 1 => Entry(first + i, log[first + i - 1]))
  }

  function SnapshotFrames(id: string, epoch: string, s: Snapshot): set<Frame> {
    {SnapshotBegin(Begin(id, epoch, s.high)), SnapshotEnd(id, |s.batches|)}
    + set k | 0 <= k < |s.batches| :: SnapshotBatch(id, k, s.batches[k])
  }

  ghost predicate Enabled(w: World, s: Step) {
    match s
    case Write(_) => true
    case Prune(upto) => w.pruned <= upto <= |w.log|
    case ReadMark => true
    case ReadRows(id, high, batches) =>
      && high in w.marks && id != "" && id !in w.snaps && id !in w.recv.staging
      && IsListing(batches, TableOf(w.log)) && OnceEach(batches)
    case SendDelta(first, last) => w.pruned < first <= last <= |w.log|
    case Deliver(f, _) => f in w.frames
    case Update(rows) => forall f :: f in rows ==> f in w.log
    case RestartReceiver => true
    case FrameWritten(f) => f in w.frames && (f.SnapshotEnd? || f.DeltaBatch?) && (f.SnapshotEnd? ==> f.id in w.snaps)
    case DeliverAck(a) => a in w.acks && a.Ack?
    case RestartSender => true
  }

  /** Endpoints only move forward within a session; an equal one is replaced. */
  function NoteWritten(w: World, high: nat, snapshotId: string): World {
    w.(written := w.written + {high},
       sent := if w.sent.None? || high >= w.sent.value.high then Some(Sent(high, snapshotId)) else w.sent)
  }

  predicate AcceptsAck(w: World, a: Reply)
    requires a.Ack?
  {
    && w.sent.Some? && a.epoch == w.epoch && a.applied == w.sent.value.high && a.snapshotId == w.sent.value.snapshotId
    && !(w.outgoing.epoch == a.epoch && w.outgoing.applied >= a.applied)
  }

  ghost function Next(w: World, s: Step): World
    requires Enabled(w, s)
  {
    match s
    case Write(row) => w.(log := w.log + [row])
    case Prune(upto) => w.(pruned := upto)
    case ReadMark => w.(marks := w.marks + {|w.log|})
    case ReadRows(id, high, batches) =>
      var snap := Snapshot(high, |w.log|, batches);
      w.(snaps := w.snaps[id := snap], frames := w.frames + SnapshotFrames(id, w.epoch, snap))
    case SendDelta(first, last) =>
      w.(frames := w.frames + {DeltaBatch(w.epoch, first, last, SliceEntries(w.log, first, last))})
    case Deliver(f, o) =>
      var (recv, reply) := Handle(w.recv, f, o);
      w.(recv := recv,
         anchored := w.anchored || (f.SnapshotEnd? && reply.Ack?),
         acks := if reply.Ack? then w.acks + {reply} else w.acks,
         committed := if reply.Ack? then w.committed + {reply.applied} else w.committed)
    case Update(rows) => w.(recv := OnUpdate(w.recv, rows))
    case RestartReceiver => w.(recv := w.recv.(begin := None))
    case FrameWritten(f) =>
      if f.SnapshotEnd? then NoteWritten(w, w.snaps[f.id].high, f.id) else NoteWritten(w, f.to, "")
    case DeliverAck(a) =>
      if AcceptsAck(w, a) then w.(outgoing := Cursor(a.epoch, a.applied, "", 0)) else w
    case RestartSender => w.(sent := None, written := {})
  }

  ghost predicate IsRun(ws: seq<World>, steps: seq<Step>) {
    && |ws| == |steps| + 1
    && Initial(ws[0])
    && forall i :: 0 <= i < |steps| ==> StepAt(ws, steps, i)
  }

  ghost predicate StepAt(ws: seq<World>, steps: seq<Step>, i: nat)
    requires i < |steps| < |ws|
  {
    Enabled(ws[i], steps[i]) && ws[i + 1] == Next(ws[i], steps[i])
  }

  // --- What every step keeps -------------------------------------------------------------

  /** The sender's table when snapshot `s` listed it. */
  ghost function TakenTable(log: seq<FileInfo>, s: Snapshot): Table
    requires s.taken <= |log|
  {
    TableOf(log[..s.taken])
  }

  ghost predicate SnapOk(log: seq<FileInfo>, s: Snapshot) {
    s.high <= s.taken <= |log| && IsListing(s.batches, TakenTable(log, s))
  }

  ghost predicate FrameOk(epoch: string, log: seq<FileInfo>, snaps: map<string, Snapshot>, f: Frame) {
    match f
    case SnapshotBegin(b) => b.id in snaps && b.epoch == epoch && b.high == snaps[b.id].high
    case SnapshotBatch(id, batch, files) =>
      id in snaps && batch < |snaps[id].batches| && files == snaps[id].batches[batch]
    case SnapshotEnd(id, count) => id in snaps && count == |snaps[id].batches|
    case DeltaBatch(e, from, to, entries) =>
      e == epoch && 1 <= from <= to <= |log| && entries == SliceEntries(log, from, to)
  }

  /** Staged rows of a snapshot are rows of that snapshot. */
  ghost predicate StagingOk(log: seq<FileInfo>, snaps: map<string, Snapshot>, staging: map<string, Table>) {
    forall id, p :: id in snaps && id in staging && p in staging[id] && snaps[id].taken <= |log| ==>
      p in TakenTable(log, snaps[id]) && staging[id][p] == TakenTable(log, snaps[id])[p]
  }

  /** The first `n` batches of a snapshot have all been staged. */
  ghost predicate StagedUpTo(s: Snapshot, staged: Table, n: nat) {
    n <= |s.batches| && forall k, f :: 0 <= k < n && f in s.batches[k] ==> f.relpath in staged && staged[f.relpath] == f
  }

  /**
   The batch count the receiver will go on from stands for batches it has: it
   is 0, or that many leading batches of this snapshot are already staged, or it
   is past the last batch and the snapshot can only be dropped.
   */
  ghost predicate ResumesRightly(s: Snapshot, staged: Table, n: nat) {
    n <= |s.batches| ==> StagedUpTo(s, staged, n)
  }

  /** The snapshot in progress is one the sender sent. */
  ghost predicate BeginKnown(w: World) {
    w.recv.begin.Some? ==>
      var b := w.recv.begin.value;
      b.epoch == w.epoch && b.id in w.snaps && b.high == w.snaps[b.id].high
  }

  ghost predicate BeginStaged(w: World) {
    w.recv.begin.Some? && w.recv.begin.value.id in w.snaps ==>
      var id := w.recv.begin.value.id;
      ResumesRightly(w.snaps[id], Staged(w.recv.staging, id), w.recv.cursor.snapshotBatch)
  }

  /** `row` is what some write of `p` stored, no earlier than sequence `since`. */
  ghost predicate WrittenSince(log: seq<FileInfo>, p: string, row: FileInfo, since: nat) {
    exists s :: 0 <= s < |log| && since <= s + 1 && log[s] == row && row.relpath == p
  }

  /** How far into this epoch's journal the mirror is known to be. */
  function Position(w: World): nat { if w.recv.cursor.epoch == w.epoch then w.recv.cursor.applied else 0 }

  /** The row is at least as new for `p` as the cursor says. */
  ghost predicate RowOk(w: World, p: string, row: FileInfo)
    requires Position(w) <= |w.log|
  {
    var last := LastWrite(w.log, p, Position(w));
    || WrittenSince(w.log, p, row, last)
    || (last == 0 && !w.anchored && p in w.leftover && row == w.leftover[p])
  }

  ghost predicate PathOk(w: World, p: string)
    requires Position(w) <= |w.log|
  {
    if p in w.recv.mirror then RowOk(w, p, w.recv.mirror[p])
    else LastWrite(w.log, p, Position(w)) == 0 && (w.anchored || p !in w.leftover)
  }

  ghost predicate MirrorOk(w: World) {
    Position(w) <= |w.log| && forall p :: PathOk(w, p)
  }

  /** What every step keeps, whatever fails. */
  ghost predicate Base(w: World) {
    && w.pruned <= |w.log|
    && (forall m :: m in w.marks ==> m <= |w.log|)
    && (forall id :: id in w.snaps ==> SnapOk(w.log, w.snaps[id]))
    && (forall f :: f in w.frames ==> FrameOk(w.epoch, w.log, w.snaps, f))
    && StagingOk(w.log, w.snaps, w.recv.staging)
    && BeginKnown(w)
  }

  ghost predicate Inv(w: World) { Base(w) && BeginStaged(w) && MirrorOk(w) }

  /** The step cannot break the agreement. For all but two kinds of step that is so by what they are. */
  ghost predicate Harmless(w: World, s: Step)
    requires Position(w) <= |w.log|
  {
    match s
    case Deliver(f, o) =>
      f.SnapshotBegin? && f.begin.id != "" && !o.cursorOk && f.begin.id in w.snaps ==>
        ResumesRightly(w.snaps[f.begin.id], Staged(w.recv.staging, f.begin.id), w.recv.cursor.snapshotBatch)
    case Update(rows) =>
      forall p :: LastWrite(rows, p, |rows|) > 0 ==> RowOk(w, p, rows[LastWrite(rows, p, |rows|) - 1])
    case _ => true
  }

  // --- The frames and the staging area ---------------------------------------------------

  lemma WriteKeepsBase(w: World, row: FileInfo)
    requires Base(w)
    ensures Base(Next(w, Write(row)))
    ensures forall id :: id in w.snaps ==> TakenTable(w.log + [row], w.snaps[id]) == TakenTable(w.log, w.snaps[id])
  {
    var w' := Next(w, Write(row));
    assert w.log <= w'.log;
    forall id | id in w.snaps ensures SnapOk(w'.log, w.snaps[id]) && TakenTable(w'.log, w.snaps[id]) == TakenTable(w.log, w.snaps[id]) {
      var t := w.snaps[id].taken;
      assert SnapOk(w.log, w.snaps[id]);
      assert w'.log[..t] == w.log[..t];
    }
    forall f | f in w.frames ensures FrameOk(w.epoch, w'.log, w.snaps, f) {
      assert FrameOk(w.epoch, w.log, w.snaps, f);
      if f.DeltaBatch? { assert SliceEntries(w'.log, f.from, f.to) == SliceEntries(w.log, f.from, f.to); }
    }
  }

  lemma ReadRowsKeepsBase(w: World, id: string, high: nat, batches: seq<seq<FileInfo>>)
    requires Base(w) && Enabled(w, ReadRows(id, high, batches))
    ensures Base(Next(w, ReadRows(id, high, batches)))
  {
    var w' := Next(w, ReadRows(id, high, batches));
    assert w.log[..|w.log|] == w.log;
    forall f | f in w'.frames ensures FrameOk(w.epoch, w.log, w'.snaps, f) {
      if f in w.frames { assert FrameOk(w.epoch, w.log, w.snaps, f); }
    }
  }

  /** Storing rows of a table into part of that table leaves part of that table, with those rows in it. */
  lemma StoreListed(before: Table, files: seq<FileInfo>, t: Table)
    requires forall f :: f in files ==> f.relpath in t && t[f.relpath] == f
    requires forall p :: p in before ==> p in t && before[p] == t[p]
    ensures var after := ApplyRows(before, files);
            && (forall p :: p in after ==> p in t && after[p] == t[p])
            && before.Keys <= after.Keys
            && forall f :: f in files ==> f.relpath in after
  {
    if files != [] {
      var n := |files| - 1;
      StoreListed(before, files[..n], t);
      assert files == files[..n] + [files[n]];
    }
  }

  lemma StageBatchAt(staging: map<string, Table>, id: string, batch: nat, files: seq<FileInfo>)
    ensures var staging' := StageBatch(staging, id, batch, files);
            && Staged(staging', id) == ApplyRows(Staged(staging, id), files)
            && forall k :: k in staging' && k != id ==> k in staging && staging'[k] == staging[k]
  {
  }

  lemma BatchKeepsStaging(log: seq<FileInfo>, snaps: map<string, Snapshot>, staging: map<string, Table>,
                          id: string, batch: nat, files: seq<FileInfo>)
    requires StagingOk(log, snaps, staging) && id in snaps && SnapOk(log, snaps[id])
    requires batch < |snaps[id].batches| && files == snaps[id].batches[batch]
    ensures StagingOk(log, snaps, StageBatch(staging, id, batch, files))
  {
    StageBatchAt(staging, id, batch, files);
    StoreListed(Staged(staging, id), files, TakenTable(log, snaps[id]));
  }

  /** Rows staged so far are rows of the listed table. */
  ghost predicate PartOf(before: Table, log: seq<FileInfo>, snap: Snapshot)
    requires snap.taken <= |log|
  {
    forall p :: p in before ==> p in TakenTable(log, snap) && before[p] == TakenTable(log, snap)[p]
  }

  /** Staging a batch keeps every count that was right. */
  lemma CountStays(log: seq<FileInfo>, snap: Snapshot, before: Table, batch: nat, n: nat)
    requires SnapOk(log, snap) && batch < |snap.batches| && PartOf(before, log, snap) && StagedUpTo(snap, before, n)
    ensures StagedUpTo(snap, ApplyRows(before, snap.batches[batch]), n)
  {
    var t, after := TakenTable(log, snap), ApplyRows(before, snap.batches[batch]);
    StoreListed(before, snap.batches[batch], t);
    forall k, f | 0 <= k < n && f in snap.batches[k] ensures f.relpath in after && after[f.relpath] == f {
      assert f.relpath in before && t[f.relpath] == f;
    }
  }

  /** And it makes the next count right. */
  lemma CountGrows(log: seq<FileInfo>, snap: Snapshot, before: Table, batch: nat)
    requires SnapOk(log, snap) && batch < |snap.batches| && PartOf(before, log, snap) && StagedUpTo(snap, before, batch)
    ensures StagedUpTo(snap, ApplyRows(before, snap.batches[batch]), batch + 1)
  {
    var t, after := TakenTable(log, snap), ApplyRows(before, snap.batches[batch]);
    StoreListed(before, snap.batches[batch], t);
    forall k, f | 0 <= k < batch + 1 && f in snap.batches[k] ensures f.relpath in after && after[f.relpath] == f {
      assert t[f.relpath] == f;
      assert k < batch ==> f.relpath in before;
    }
  }

  lemma DeliverKeepsBase(w: World, f: Frame, o: StoreOutcome)
    requires Base(w) && f in w.frames
    ensures Base(Next(w, Deliver(f, o)))
  {
    assert FrameOk(w.epoch, w.log, w.snaps, f);
    var w' := Next(w, Deliver(f, o));
    if f.SnapshotBatch? && w'.recv.staging != w.recv.staging {
      assert SnapOk(w.log, w.snaps[f.id]);
      BatchKeepsStaging(w.log, w.snaps, w.recv.staging, f.id, f.batch, f.files);
    }
  }

  lemma StepKeepsBase(w: World, s: Step)
    requires Base(w) && Enabled(w, s)
    ensures Base(Next(w, s))
  {
    match s
    case Write(row) => WriteKeepsBase(w, row);
    case ReadRows(id, high, batches) => ReadRowsKeepsBase(w, id, high, batches);
    case Deliver(f, o) => DeliverKeepsBase(w, f, o);
    case _ =>
  }

  lemma {:induction false} RunKeepsBase(ws: seq<World>, steps: seq<Step>, i: nat)
    requires IsRun(ws, steps) && i < |ws|
    ensures Base(ws[i])
  {
    if i > 0 {
      assert StepAt(ws, steps, i - 1);
      RunKeepsBase(ws, steps, i - 1);
      StepKeepsBase(ws[i - 1], steps[i - 1]);
    }
  }

  // --- The snapshot in progress ------------------------------------------------------------

  /** Staged rows of a listed table that include every batch are that table. */
  lemma StagedIsTable(s: Snapshot, log: seq<FileInfo>, staged: Table)
    requires s.taken <= |log| && IsListing(s.batches, TakenTable(log, s)) && StagedUpTo(s, staged, |s.batches|)
    requires forall p :: p in staged ==> p in TakenTable(log, s) && staged[p] == TakenTable(log, s)[p]
    ensures staged == TakenTable(log, s)
  {
    var t := TakenTable(log, s);
    forall p | p in t ensures p in staged {
      var k :| 0 <= k < |s.batches| && t[p] in s.batches[k];
      TableAt(log[..s.taken], p);
    }
  }

  /** A snapshot whose batches were all staged installs the table it listed. */
  lemma CommitInstallsTable(w: World, id: string)
    requires Base(w) && id in w.snaps && StagedUpTo(w.snaps[id], Staged(w.recv.staging, id), |w.snaps[id].batches|)
    ensures w.snaps[id].taken <= |w.log| && Staged(w.recv.staging, id) == TakenTable(w.log, w.snaps[id])
  {
    assert SnapOk(w.log, w.snaps[id]);
    StagedIsTable(w.snaps[id], w.log, Staged(w.recv.staging, id));
  }

  /** A batch that is staged leaves a count that is right, whichever of its cursor calls fail. */
  lemma BatchKeepsCount(w: World, batch: nat, o: StoreOutcome)
    requires Base(w) && BeginStaged(w) && w.recv.begin.Some?
    requires var s := w.snaps[w.recv.begin.value.id];
             batch < |s.batches| && batch == ReadCursor(w.recv, o.readOk).snapshotBatch
    ensures var id, n := w.recv.begin.value.id, if o.cursorOk then batch + 1 else w.recv.cursor.snapshotBatch;
            ResumesRightly(w.snaps[id], ApplyRows(Staged(w.recv.staging, id), w.snaps[id].batches[batch]), n)
  {
    var id := w.recv.begin.value.id;
    var snap, before, n := w.snaps[id], Staged(w.recv.staging, id), w.recv.cursor.snapshotBatch;
    assert SnapOk(w.log, snap);
    if o.cursorOk {
      CountGrows(w.log, snap, before, batch);
    } else if n <= |snap.batches| {
      CountStays(w.log, snap, before, batch, n);
    }
  }

  lemma BatchKeepsStaged(w: World, id: string, batch: nat, files: seq<FileInfo>, o: StoreOutcome)
    requires Base(w) && BeginStaged(w) && SnapshotBatch(id, batch, files) in w.frames
    ensures BeginStaged(w.(recv := OnBatch(w.recv, id, batch, files, o).0))
  {
    assert FrameOk(w.epoch, w.log, w.snaps, SnapshotBatch(id, batch, files));
    var recv := OnBatch(w.recv, id, batch, files, o).0;
    if recv != w.recv {
      BatchKeepsCount(w, batch, o);
      StageBatchAt(w.recv.staging, id, batch, files);
    }
  }

  lemma DeliverKeepsStaged(w: World, f: Frame, o: StoreOutcome)
    requires Base(w) && BeginStaged(w) && f in w.frames && !f.SnapshotBegin?
    ensures BeginStaged(Next(w, Deliver(f, o)))
  {
    var w' := Next(w, Deliver(f, o));
    if f.SnapshotBatch? {
      BatchKeepsStaged(w, f.id, f.batch, f.files, o);
    } else {
      assert w'.recv.cursor.snapshotBatch == w.recv.cursor.snapshotBatch || w'.recv.begin.None?;
    }
  }

  /** Starting a snapshot with its first cursor write lost is right exactly when the count it finds is. */
  lemma BeginKeepsStagedIff(w: World, b: Begin, cursorOk: bool)
    requires Base(w) && b.id in w.snaps && b.id != "" && SnapshotBegin(b) in w.frames
    ensures BeginStaged(w.(recv := OnBegin(w.recv, b, cursorOk).0))
       <==> cursorOk || ResumesRightly(w.snaps[b.id], Staged(w.recv.staging, b.id), w.recv.cursor.snapshotBatch)
  {
  }

  // --- The mirror ----------------------------------------------------------------------------

  /** Rows listed after the mark was read are as new as the mark. */
  lemma ListedRowsAreRecent(log: seq<FileInfo>, high: nat, taken: nat, p: string)
    requires high <= taken <= |log|
    ensures var t := TableOf(log[..taken]);
            if p in t then WrittenSince(log, p, t[p], LastWrite(log, p, high)) else LastWrite(log, p, high) == 0
  {
    var part := log[..taken];
    TableAt(part, p);
    LastWriteOfPrefix(part, log, p, taken);
    var s := LastWrite(part, p, taken);
    assert LastWrite(log, p, high) <= LastWrite(log, p, taken) by { LastWriteSplit(log, p, high, taken); }
    if s > 0 { assert log[s - 1] == part[s - 1]; }
  }

  /** A row that was new enough still is, when the log grows or the position falls back. */
  lemma RowStaysOk(w: World, w': World, p: string, row: FileInfo)
    requires Position(w) <= |w.log| && RowOk(w, p, row) && w.log <= w'.log
    requires w'.anchored == w.anchored && w'.leftover == w.leftover && (Position(w') == Position(w) || Position(w') == 0)
    ensures RowOk(w', p, row)
  {
    LastWriteOfPrefix(w.log, w'.log, p, Position(w'));
    if WrittenSince(w.log, p, row, LastWrite(w.log, p, Position(w))) {
      var s :| 0 <= s < |w.log| && LastWrite(w.log, p, Position(w)) <= s + 1 && w.log[s] == row;
      assert w'.log[s] == row;
    }
  }

  lemma SameMirror(w: World, w': World)
    requires MirrorOk(w) && w.log <= w'.log && w'.anchored == w.anchored && w'.leftover == w.leftover
    requires w'.recv.mirror == w.recv.mirror && (Position(w') == Position(w) || Position(w') == 0)
    ensures MirrorOk(w')
  {
    forall p ensures PathOk(w', p) {
      assert PathOk(w, p);
      LastWriteOfPrefix(w.log, w'.log, p, Position(w'));
      if p in w.recv.mirror { RowStaysOk(w, w', p, w.recv.mirror[p]); }
    }
  }

  lemma CommitKeepsMirror(w: World, id: string, w': World)
    requires Base(w) && id in w.snaps && StagedUpTo(w.snaps[id], Staged(w.recv.staging, id), |w.snaps[id].batches|)
    requires w'.log == w.log && w'.epoch == w.epoch && w'.anchored
    requires w'.recv == Receiver(Cursor(w.epoch, w.snaps[id].high, "", 0), None, map[], Staged(w.recv.staging, id))
    ensures MirrorOk(w')
  {
    CommitInstallsTable(w, id);
    var snap := w.snaps[id];
    assert SnapOk(w.log, snap);
    forall p ensures PathOk(w', p) { ListedRowsAreRecent(w.log, snap.high, snap.taken, p); }
  }

  lemma SliceRows(w: World, f: Frame)
    requires f.DeltaBatch? && FrameOk(w.epoch, w.log, w.snaps, f)
    ensures 1 <= f.from <= f.to <= |w.log| && RowsOf(f.entries) == w.log[f.from - 1..f.to]
  {
  }

  /** A path the slice writes gets the slice's last row for it. */
  lemma SliceWrites(w: World, k: nat, to: nat, w': World, p: string)
    requires k < to <= |w.log| && LastWrite(w.log[k..to], p, to - k) > 0
    requires w'.log == w.log && Position(w') == to && w'.recv.mirror == ApplyRows(w.recv.mirror, w.log[k..to])
    ensures PathOk(w', p)
  {
    var rows := w.log[k..to];
    ApplyRowsAt(w.recv.mirror, rows, p);
    LastWriteSplit(w.log, p, k, to);
    var s := LastWrite(rows, p, |rows|);
    assert w.log[k + s - 1] == rows[s - 1];
  }

  /** Any other keeps its row, which is still as new as it has to be. */
  lemma SliceSkips(w: World, k: nat, to: nat, w': World, p: string)
    requires Position(w) == k < to <= |w.log| && PathOk(w, p) && LastWrite(w.log[k..to], p, to - k) == 0
    requires w'.log == w.log && Position(w') == to && w'.recv.mirror == ApplyRows(w.recv.mirror, w.log[k..to])
    requires w'.anchored == w.anchored && w'.leftover == w.leftover
    ensures PathOk(w', p)
  {
    ApplyRowsAt(w.recv.mirror, w.log[k..to], p);
    LastWriteSplit(w.log, p, k, to);
  }

  /** Applying the next slice of the journal brings every path it writes up to date. */
  lemma DeltaKeepsMirror(w: World, f: Frame, w': World)
    requires MirrorOk(w) && f.DeltaBatch? && FrameOk(w.epoch, w.log, w.snaps, f)
    requires w.recv.cursor.epoch == f.epoch && f.from == w.recv.cursor.applied + 1
    requires w'.log == w.log && w'.epoch == w.epoch && w'.anchored == w.anchored && w'.leftover == w.leftover
    requires w'.recv == w.recv.(mirror := ApplyRows(w.recv.mirror, RowsOf(f.entries)), cursor := w.recv.cursor.(applied := f.to))
    ensures MirrorOk(w')
  {
    SliceRows(w, f);
    forall p ensures PathOk(w', p) {
      assert PathOk(w, p);
      var k := w.recv.cursor.applied;
      if LastWrite(w.log[k..f.to], p, f.to - k) > 0 { SliceWrites(w, k, f.to, w', p); } else { SliceSkips(w, k, f.to, w', p); }
    }
  }

  lemma DeliverKeepsMirror(w: World, f: Frame, o: StoreOutcome)
    requires Inv(w) && f in w.frames
    ensures MirrorOk(Next(w, Deliver(f, o)))
  {
    var w' := Next(w, Deliver(f, o));
    assert FrameOk(w.epoch, w.log, w.snaps, f);
    match f
    case SnapshotEnd(id, count) =>
      if Handle(w.recv, f, o).1.Ack? {
        var n := ReadCursor(w.recv, o.readOk).snapshotBatch;
        assert StagedUpTo(w.snaps[id], Staged(w.recv.staging, id), n);
        CommitKeepsMirror(w, id, w');
      } else { SameMirror(w, w'); }
    case DeltaBatch(_, _, _, _) =>
      if Handle(w.recv, f, o).1.Ack? {
        DeltaKeepsMirror(w, f, w');
      } else { SameMirror(w, w'); }
    case _ => SameMirror(w, w');
  }

  /**
   An update outside the sequenced stream keeps the mirror as new as its cursor
   if and only if, for each path, the last row it carries was written no earlier
   than the path's last write up to the cursor.
   */
  lemma UpdateKeepsMirrorIff(w: World, rows: seq<FileInfo>)
    requires MirrorOk(w)
    ensures MirrorOk(w.(recv := OnUpdate(w.recv, rows))) <==> Harmless(w, Update(rows))
  {
    var w' := w.(recv := OnUpdate(w.recv, rows));
    forall p ensures PathOk(w', p) <==> (LastWrite(rows, p, |rows|) > 0 ==> RowOk(w, p, rows[LastWrite(rows, p, |rows|) - 1])) {
      UpdateKeepsPathIff(w, rows, p);
    }
  }

  lemma UpdateKeepsPathIff(w: World, rows: seq<FileInfo>, p: string)
    requires Position(w) <= |w.log| && PathOk(w, p)
    ensures var s := LastWrite(rows, p, |rows|);
            PathOk(w.(recv := OnUpdate(w.recv, rows)), p) <==> (s > 0 ==> RowOk(w, p, rows[s - 1]))
  {
    var w', s := w.(recv := OnUpdate(w.recv, rows)), LastWrite(rows, p, |rows|);
    ApplyRowsAt(w.recv.mirror, rows, p);
    if p in w'.recv.mirror {
      assert RowOk(w', p, w'.recv.mirror[p]) <==> RowOk(w, p, w'.recv.mirror[p]);
    }
  }

  // --- Every step ------------------------------------------------------------------------------

  lemma SameBegin(w: World, w': World)
    requires w'.recv == w.recv && w'.snaps == w.snaps
    ensures BeginStaged(w) <==> BeginStaged(w')
  {
  }

  lemma DeliverBeginIff(w: World, b: Begin, o: StoreOutcome)
    requires Base(w) && BeginStaged(w) && SnapshotBegin(b) in w.frames
    ensures BeginStaged(Next(w, Deliver(SnapshotBegin(b), o)))
       <==> (b.id != "" && !o.cursorOk ==> ResumesRightly(w.snaps[b.id], Staged(w.recv.staging, b.id), w.recv.cursor.snapshotBatch))
  {
    assert FrameOk(w.epoch, w.log, w.snaps, SnapshotBegin(b));
    SameBegin(Next(w, Deliver(SnapshotBegin(b), o)), w.(recv := OnBegin(w.recv, b, o.cursorOk).0));
    if b.id != "" {
      BeginKeepsStagedIff(w, b, o.cursorOk);
    } else {
      SameBegin(Next(w, Deliver(SnapshotBegin(b), o)), w);
    }
  }

  lemma DeliverKeepsInvIff(w: World, f: Frame, o: StoreOutcome)
    requires Inv(w) && f in w.frames
    ensures Inv(Next(w, Deliver(f, o))) <==> Harmless(w, Deliver(f, o))
  {
    DeliverKeepsBase(w, f, o);
    DeliverKeepsMirror(w, f, o);
    if f.SnapshotBegin? {
      assert FrameOk(w.epoch, w.log, w.snaps, f);
      DeliverBeginIff(w, f.begin, o);
    } else {
      DeliverKeepsStaged(w, f, o);
    }
  }

  /** The invariant survives a step if and only if the step is harmless. */
  lemma StepKeepsInvIff(w: World, s: Step)
    requires Inv(w) && Enabled(w, s)
    ensures Inv(Next(w, s)) <==> Harmless(w, s)
  {
    if s.Deliver? {
      DeliverKeepsInvIff(w, s.frame, s.outcome);
    } else {
      StepKeepsBase(w, s);
      if s.Update? {
        UpdateKeepsMirrorIff(w, s.rows);
      } else {
        SameMirror(w, Next(w, s));
      }
    }
  }

  /** Every step of the run up to `n` was harmless when it was taken. */
  ghost predicate HarmlessUpTo(ws: seq<World>, steps: seq<Step>, n: nat)
    requires n <= |steps| < |ws|
  {
    forall i :: 0 <= i < n ==> HarmlessAt(ws, steps, i)
  }

  ghost predicate HarmlessAt(ws: seq<World>, steps: seq<Step>, i: nat)
    requires i < |steps| < |ws|
  {
    Position(ws[i]) <= |ws[i].log| ==> Harmless(ws[i], steps[i])
  }

  lemma {:induction false} RunKeepsInv(ws: seq<World>, steps: seq<Step>, i: nat)
    requires IsRun(ws, steps) && i < |ws| && HarmlessUpTo(ws, steps, i)
    ensures Inv(ws[i])
  {
    if i > 0 {
      assert StepAt(ws, steps, i - 1) && HarmlessAt(ws, steps, i - 1);
      RunKeepsInv(ws, steps, i - 1);
      StepKeepsInvIff(ws[i - 1], steps[i - 1]);
    } else {
      forall p ensures PathOk(ws[0], p) {}
    }
  }

  // --- Mirror agreement ---------------------------------------------------------------------

  /** The receiver believes it has everything the sender ever wrote. */
  predicate CaughtUp(w: World) {
    w.recv.cursor.epoch == w.epoch && w.recv.cursor.applied == |w.log|
  }

  /**
   In every run of harmless steps, a receiver that is caught up mirrors the
   sender's table row for row, tombstones included, once any snapshot of the
   epoch has been committed; until then the rows left over from before the epoch
   show through wherever this epoch has not written their path.
   */
  lemma CaughtUpMirrorIsTheTable(ws: seq<World>, steps: seq<Step>, i: nat)
    requires IsRun(ws, steps) && i < |ws| && HarmlessUpTo(ws, steps, i) && CaughtUp(ws[i])
    ensures ws[i].recv.mirror == if ws[i].anchored then TableOf(ws[i].log) else ws[i].leftover + TableOf(ws[i].log)
  {
    var w := ws[i];
    RunKeepsInv(ws, steps, i);
    var t := TableOf(w.log);
    var expected := if w.anchored then t else w.leftover + t;
    forall p ensures p in w.recv.mirror <==> p in expected
             ensures p in expected ==> w.recv.mirror[p] == expected[p]
    {
      assert PathOk(w, p);
      TableAt(w.log, p);
    }
  }

  /** So a caught-up mirror is exact if and only if nothing left over from before names a path outside the table. */
  lemma CaughtUpMirrorIsExactIff(ws: seq<World>, steps: seq<Step>, i: nat)
    requires IsRun(ws, steps) && i < |ws| && HarmlessUpTo(ws, steps, i) && CaughtUp(ws[i])
    ensures ws[i].recv.mirror == TableOf(ws[i].log)
       <==> ws[i].anchored || ws[i].leftover.Keys <= TableOf(ws[i].log).Keys
  {
    CaughtUpMirrorIsTheTable(ws, steps, i);
    var w := ws[i];
    var t := TableOf(w.log);
    if !w.anchored && w.leftover + t == t {
      assert (w.leftover + t).Keys == w.leftover.Keys + t.Keys;
    }
    if w.leftover.Keys <= t.Keys {
      assert w.leftover + t == t;
    }
  }

  // --- Acknowledgements ------------------------------------------------------------------------

  ghost predicate AckInv(w: World) {
    && (forall a :: a in w.acks ==> a.Ack? && a.epoch == w.epoch && a.applied in w.committed)
    && (w.outgoing.epoch == w.epoch ==> w.outgoing.applied in w.committed)
    && (w.sent.Some? ==> w.sent.value.high in w.written)
  }

  lemma StepKeepsAckInv(w: World, s: Step)
    requires Base(w) && AckInv(w) && Enabled(w, s)
    ensures AckInv(Next(w, s))
  {
    if s.Deliver? { assert FrameOk(w.epoch, w.log, w.snaps, s.frame); }
  }

  lemma {:induction false} RunKeepsAckInv(ws: seq<World>, steps: seq<Step>, i: nat)
    requires IsRun(ws, steps) && i < |ws|
    ensures AckInv(ws[i])
  {
    if i > 0 {
      assert StepAt(ws, steps, i - 1);
      RunKeepsAckInv(ws, steps, i - 1);
      RunKeepsBase(ws, steps, i - 1);
      StepKeepsAckInv(ws[i - 1], steps[i - 1]);
    }
  }

  /**
   The sender's record of a peer only moves forward within an epoch, and when
   it moves it names a position the receiver had already committed and the end
   of a frame this session had fully written.
   */
  lemma OutgoingCursorIsSafe(ws: seq<World>, steps: seq<Step>, i: nat)
    requires IsRun(ws, steps) && i < |steps|
    ensures var before, after := ws[i].outgoing, ws[i + 1].outgoing;
            && (before.epoch == ws[i].epoch ==> after.epoch == before.epoch && before.applied <= after.applied)
            && (after != before ==> after.applied in ws[i].committed && after.applied in ws[i].written)
  {
    assert StepAt(ws, steps, i);
    RunKeepsAckInv(ws, steps, i);
  }

  /** Over a whole run: once in the epoch, the record never falls. */
  lemma {:induction false} OutgoingCursorNeverFalls(ws: seq<World>, steps: seq<Step>, i: nat, j: nat)
    requires IsRun(ws, steps) && i <= j < |ws| && ws[i].outgoing.epoch == ws[i].epoch
    ensures ws[j].epoch == ws[i].epoch && ws[j].outgoing.epoch == ws[i].epoch
    ensures ws[i].outgoing.applied <= ws[j].outgoing.applied && ws[j].outgoing.applied in ws[j].committed
    decreases j
  {
    RunKeepsAckInv(ws, steps, j);
    if i < j {
      assert StepAt(ws, steps, j - 1);
      OutgoingCursorNeverFalls(ws, steps, i, j - 1);
      OutgoingCursorIsSafe(ws, steps, j - 1);
    }
  }

  /** The endpoint an acknowledgement is compared with is the newest this session has fully written. */
  ghost predicate SentIsNewest(w: World) {
    && (w.sent.None? <==> w.written == {})
    && (w.sent.Some? ==> w.sent.value.high in w.written && forall h :: h in w.written ==> h <= w.sent.value.high)
  }

  lemma NoteKeepsNewest(w: World, high: nat, id: string)
    requires SentIsNewest(w)
    ensures SentIsNewest(NoteWritten(w, high, id))
  {
  }

  lemma OthersKeepSent(w: World, s: Step)
    requires Enabled(w, s) && !s.FrameWritten? && !s.RestartSender?
    ensures Next(w, s).sent == w.sent && Next(w, s).written == w.written
  {
  }

  lemma StepKeepsNewest(w: World, s: Step)
    requires SentIsNewest(w) && Enabled(w, s)
    ensures SentIsNewest(Next(w, s))
  {
    match s
    case FrameWritten(f) =>
      if f.SnapshotEnd? { NoteKeepsNewest(w, w.snaps[f.id].high, f.id); } else { NoteKeepsNewest(w, f.to, ""); }
    case RestartSender =>
    case _ => OthersKeepSent(w, s);
  }

  lemma {:induction false} SentIsTheNewest(ws: seq<World>, steps: seq<Step>, i: nat)
    requires IsRun(ws, steps) && i < |ws|
    ensures SentIsNewest(ws[i])
  {
    if i > 0 {
      assert StepAt(ws, steps, i - 1);
      SentIsTheNewest(ws, steps, i - 1);
      StepKeepsNewest(ws[i - 1], steps[i - 1]);
    }
  }

  /** A written frame becomes that endpoint, with its snapshot's id, unless a newer one was written before. */
  lemma WrittenFrameIsNoted(w: World, f: Frame)
    requires SentIsNewest(w) && Enabled(w, FrameWritten(f))
    ensures var high, id := if f.SnapshotEnd? then w.snaps[f.id].high else f.to, if f.SnapshotEnd? then f.id else "";
            var w' := Next(w, FrameWritten(f));
            && w'.written == w.written + {high} && w'.outgoing == w.outgoing
            && (if forall h :: h in w.written ==> h <= high then w'.sent == Some(Sent(high, id)) else w'.sent == w.sent)
  {
  }

  /** An acknowledgement moves the record if and only if it names that endpoint and its snapshot, and the record is not there yet. */
  lemma AckIsTakenIff(w: World, a: Reply)
    requires AckInv(w) && Enabled(w, DeliverAck(a))
    ensures var newer := !(w.outgoing.epoch == w.epoch && w.outgoing.applied >= a.applied);
            var got := Next(w, DeliverAck(a)).outgoing;
            if w.sent == Some(Sent(a.applied, a.snapshotId)) && newer
            then got == Cursor(w.epoch, a.applied, "", 0) && got != w.outgoing
            else got == w.outgoing
  {
  }
}

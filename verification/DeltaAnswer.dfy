/**
 A delta answer refines a snapshot answer: it is accepted frame by frame and
 leaves the receiver with the same mirror and position.

 The second half shows where the mirror can part from the table outside the
 protocol's main line, and exactly when.
 */
module DeltaAnswer {
  import opened Reconcile
  import opened IndexLog
  import opened IndexReceiver
  import opened Mirror
  import opened FileStore

  const ALL_OK := StoreOutcome(true, true, true)

  /** The receiver after handling `frames` in order, with every store write succeeding. */
  function ReceiveAll(r: Receiver, frames: seq<Frame>): Receiver {
    if frames == [] then r
    else
      var n := |frames| - 1;
      Handle(ReceiveAll(r, frames[..n]), frames[n], ALL_OK).0
  }

  lemma {:induction false} ApplyRowsConcat(m: Table, a: seq<FileInfo>, b: seq<FileInfo>)
    ensures ApplyRows(m, a + b) == ApplyRows(ApplyRows(m, a), b)
  {
    if b == [] {
      assert a + b == a;
    } else {
      var n := |b| - 1;
      assert (a + b)[..|a + b| - 1] == a + b[..n];
      ApplyRowsConcat(m, a, b[..n]);
    }
  }

  // --- Deltas ---------------------------------------------------------------------------------

  /** Each tile passes the range and cursor checks, and together they replay the rest of the journal. */
  lemma {:induction false} TilesAreApplied(r: Receiver, frames: seq<Frame>, epoch: string, log: seq<FileInfo>, applied: nat, upto: nat)
    requires Tiles(frames, epoch, log, applied, upto)
    requires r.cursor.epoch == epoch && r.cursor.applied == applied
    ensures ReceiveAll(r, frames) == r.(mirror := ApplyRows(r.mirror, log[applied..upto]), cursor := r.cursor.(applied := upto))
    ensures frames != [] ==>
      Handle(ReceiveAll(r, frames[..|frames| - 1]), frames[|frames| - 1], ALL_OK).1 == Ack(epoch, upto, "")
    decreases |frames|
  {
    if frames != [] {
      var n := |frames| - 1;
      var f := frames[n];
      var mid := f.from - 1;
      TilesAreApplied(r, frames[..n], epoch, log, applied, mid);
      assert RowsOf(f.entries) == log[mid..upto];
      TileApplied(r, f, log, applied, mid, upto);
    } else {
      assert log[applied..upto] == [];
    }
  }

  /** One tile on top of the ones before it. */
  lemma TileApplied(r: Receiver, f: Frame, log: seq<FileInfo>, applied: nat, mid: nat, upto: nat)
    requires applied <= mid < upto <= |log| && f.DeltaBatch? && WellFormedDelta(f)
    requires f.from == mid + 1 && f.to == upto && f.epoch == r.cursor.epoch && RowsOf(f.entries) == log[mid..upto]
    ensures Handle(r.(mirror := ApplyRows(r.mirror, log[applied..mid]), cursor := r.cursor.(applied := mid)), f, ALL_OK)
         == (r.(mirror := ApplyRows(r.mirror, log[applied..upto]), cursor := r.cursor.(applied := upto)), Ack(f.epoch, upto, ""))
  {
    assert log[applied..upto] == log[applied..mid] + log[mid..upto];
    ApplyRowsConcat(r.mirror, log[applied..mid], log[mid..upto]);
  }

  /** Frames that begin beyond the cursor's next sequence change nothing, in whatever order. */
  lemma {:induction false} GapIsRefused(r: Receiver, frames: seq<Frame>)
    requires AllFrom(frames, r.cursor.applied + 2)
    ensures ReceiveAll(r, frames) == r
  {
    if frames != [] {
      var n := |frames| - 1;
      assert AllFrom(frames[..n], r.cursor.applied + 2) by { assert forall i :: 0 <= i < n ==> frames[..n][i] == frames[i]; }
      GapIsRefused(r, frames[..n]);
    }
  }

  lemma {:induction false} ReceiveAllConcat(r: Receiver, a: seq<Frame>, b: seq<Frame>)
    ensures ReceiveAll(r, a + b) == ReceiveAll(ReceiveAll(r, a), b)
    decreases |b|
  {
    if b == [] {
      assert a + b == a;
    } else {
      var n := |b| - 1;
      assert (a + b)[..|a + b| - 1] == a + b[..n];
      ReceiveAllConcat(r, a, b[..n]);
    }
  }

  /**
   Whatever was written and pruned while the answer was sent, the receiver ends
   at the end of its tiles with exactly the journal up to there replayed, and
   refuses what lies beyond a gap.
   */
  lemma AnswerIsAppliedUpToAnyGap(r: Receiver, frames: seq<Frame>, epoch: string, log: seq<FileInfo>, pruned: int,
                                  applied: nat, goal: nat, cut: nat, to: nat)
    requires Answered(frames, epoch, log, pruned, applied, goal, cut, to)
    requires r.cursor.epoch == epoch && r.cursor.applied == applied
    ensures ReceiveAll(r, frames) == r.(mirror := ApplyRows(r.mirror, log[applied..to]), cursor := r.cursor.(applied := to))
    ensures pruned <= to ==> to >= goal
  {
    TilesAreApplied(r, frames[..cut], epoch, log, applied, to);
    GapIsRefused(ReceiveAll(r, frames[..cut]), frames[cut..]);
    ReceiveAllConcat(r, frames[..cut], frames[cut..]);
    assert frames[..cut] + frames[cut..] == frames;
  }

  lemma ReplayAt(log: seq<FileInfo>, mirror: Table, k: nat, p: string)
    requires k <= |log|
    requires if p in mirror then WrittenSince(log, p, mirror[p], LastWrite(log, p, k)) else LastWrite(log, p, k) == 0
    ensures var got := ApplyRows(mirror, log[k..|log|]);
            && (p in got <==> p in TableOf(log))
            && (p in got ==> got[p] == TableOf(log)[p])
  {
    var since := LastWrite(log, p, k);
    var last := CurrentRow(log, p);
    var tail := TailRow(mirror, log, k, p, since, last);
    SameRow(log, p, mirror, k, tail, since, last, ApplyRows(mirror, log[k..|log|]), TableOf(log));
  }

  lemma CurrentRow(log: seq<FileInfo>, p: string) returns (last: nat)
    ensures last == LastWrite(log, p, |log|) && last <= |log|
    ensures var t := TableOf(log); (p in t <==> last > 0) && (p in t ==> t[p] == log[last - 1])
    ensures forall i :: last <= i < |log| ==> log[i].relpath != p
  {
    last := LastWrite(log, p, |log|);
    TableAt(log, p);
  }

  lemma TailRow(mirror: Table, log: seq<FileInfo>, k: nat, p: string, since: nat, last: nat) returns (tail: nat)
    requires k <= |log| && since == LastWrite(log, p, k) && last == LastWrite(log, p, |log|)
    ensures k + tail <= |log| && last == if tail > 0 then k + tail else since
    ensures var got := ApplyRows(mirror, log[k..|log|]);
            && (p in got <==> p in mirror || tail > 0)
            && (p in got ==> got[p] == if tail > 0 then log[k..|log|][tail - 1] else mirror[p])
  {
    var rest := log[k..|log|];
    tail := LastWrite(rest, p, |rest|);
    ApplyRowsAt(mirror, rest, p);
    LastWriteSplit(log, p, k, |log|);
  }

  /** `tail` and `since` are the last writes after and before `k`, and `last` the later of the two. */
  lemma SameRow(log: seq<FileInfo>, p: string, mirror: Table, k: nat, tail: nat, since: nat, last: nat, got: Table, t: Table)
    requires k + tail <= |log| && last == (if tail > 0 then k + tail else since) && last <= |log|
    requires if p in mirror then WrittenSince(log, p, mirror[p], since) else since == 0
    requires (p in got <==> p in mirror || tail > 0)
    requires p in got ==> got[p] == if tail > 0 then log[k..|log|][tail - 1] else mirror[p]
    requires (p in t <==> last > 0) && (p in t ==> t[p] == log[last - 1])
    requires forall i :: last <= i < |log| ==> log[i].relpath != p
    ensures (p in got <==> p in t) && (p in got ==> got[p] == t[p])
  {
    if tail == 0 && p in mirror {
      var i :| 0 <= i < |log| && since <= i + 1 && log[i] == mirror[p] && mirror[p].relpath == p;
    }
  }

  lemma ReplayReachesTable(w: World)
    requires Inv(w) && w.anchored && w.recv.cursor.epoch == w.epoch
    ensures w.recv.cursor.applied <= |w.log|
    ensures ApplyRows(w.recv.mirror, w.log[w.recv.cursor.applied..]) == TableOf(w.log)
  {
    var k := w.recv.cursor.applied;
    assert w.log[k..] == w.log[k..|w.log|];
    var got, t := ApplyRows(w.recv.mirror, w.log[k..|w.log|]), TableOf(w.log);
    forall p ensures p in got <==> p in t
             ensures p in got ==> got[p] == t[p]
    {
      assert PathOk(w, p);
      ReplayAt(w.log, w.recv.mirror, k, p);
    }
  }

  // --- Snapshots ---------------------------------------------------------------------------------

  function BatchFrames(id: string, batches: seq<seq<FileInfo>>, n: nat): (fs: seq<Frame>)
    requires n <= |batches|
    ensures |fs| == n
  {
    seq(n, k requires 0 <= k < n => SnapshotBatch(id, k, batches[k]))
  }

  function SnapshotAnswer(id: string, epoch: string, high: nat, batches: seq<seq<FileInfo>>): seq<Frame> {
    [SnapshotBegin(Begin(id, epoch, high))] + BatchFrames(id, batches, |batches|) + [SnapshotEnd(id, |batches|)]
  }

  /** The first `n` batches of a listing of `t`, and nothing else, are staged for `b`. */
  ghost predicate StagedFrom(r: Receiver, b: Begin, batches: seq<seq<FileInfo>>, n: nat, t: Table)
    requires n <= |batches|
  {
    var staged := Staged(r.staging, b.id);
    && r.begin == Some(b) && r.cursor == Cursor(b.epoch, 0, b.id, n)
    && (forall p :: p in staged ==> p in t && staged[p] == t[p])
    && forall k, f :: 0 <= k < n && f in batches[k] ==> f.relpath in staged
  }

  lemma BatchIsStaged(r: Receiver, b: Begin, batches: seq<seq<FileInfo>>, n: nat, t: Table)
    requires n < |batches| && IsListing(batches, t) && StagedFrom(r, b, batches, n, t)
    ensures StagedFrom(Handle(r, SnapshotBatch(b.id, n, batches[n]), ALL_OK).0, b, batches, n + 1, t)
  {
    StageBatchAt(r.staging, b.id, n, batches[n]);
    StoreListed(Staged(r.staging, b.id), batches[n], t);
  }

  lemma LastBatchFrame(first: Frame, id: string, batches: seq<seq<FileInfo>>, n: nat)
    requires 0 < n <= |batches|
    ensures [first] + BatchFrames(id, batches, n)
         == [first] + BatchFrames(id, batches, n - 1) + [SnapshotBatch(id, n - 1, batches[n - 1])]
  {
    assert BatchFrames(id, batches, n) == BatchFrames(id, batches, n - 1) + [SnapshotBatch(id, n - 1, batches[n - 1])];
  }

  /** Receiving batches one after another stages exactly their rows. */
  lemma {:induction false} BatchesAreStaged(r: Receiver, b: Begin, batches: seq<seq<FileInfo>>, n: nat, t: Table)
    requires b.id != "" && b.id !in r.staging && n <= |batches| && IsListing(batches, t)
    ensures StagedFrom(ReceiveAll(r, [SnapshotBegin(b)] + BatchFrames(b.id, batches, n)), b, batches, n, t)
    decreases n
  {
    var frames := [SnapshotBegin(b)] + BatchFrames(b.id, batches, n);
    if n == 0 {
      assert frames[..0] == [] && frames == [SnapshotBegin(b)];
    } else {
      var before := [SnapshotBegin(b)] + BatchFrames(b.id, batches, n - 1);
      LastBatchFrame(SnapshotBegin(b), b.id, batches, n);
      assert frames[..|frames| - 1] == before;
      BatchesAreStaged(r, b, batches, n - 1, t);
      BatchIsStaged(ReceiveAll(r, before), b, batches, n - 1, t);
    }
  }

  lemma SnapshotInstallsTable(r: Receiver, id: string, epoch: string, log: seq<FileInfo>, batches: seq<seq<FileInfo>>)
    requires id != "" && id !in r.staging && IsListing(batches, TableOf(log))
    ensures var got := ReceiveAll(r, SnapshotAnswer(id, epoch, |log|, batches));
            got.mirror == TableOf(log) && got.cursor == Cursor(epoch, |log|, "", 0)
  {
    var b, t, frames := Begin(id, epoch, |log|), TableOf(log), SnapshotAnswer(id, epoch, |log|, batches);
    assert frames[..|frames| - 1] == [SnapshotBegin(b)] + BatchFrames(id, batches, |batches|);
    BatchesAreStaged(r, b, batches, |batches|, t);
    var staged := Staged(ReceiveAll(r, frames[..|frames| - 1]).staging, id);
    forall p | p in t ensures p in staged {
      var k :| 0 <= k < |batches| && t[p] in batches[k];
      TableAt(log, p);
    }
    assert staged == t;
  }

  /**
   From any state the protocol reaches after a snapshot, the delta answer and
   a snapshot answer leave the same mirror at the same position of the epoch.
   */
  lemma DeltaAnswerEqualsSnapshotAnswer(w: World, frames: seq<Frame>, id: string, batches: seq<seq<FileInfo>>)
    requires Inv(w) && w.anchored && w.recv.cursor.epoch == w.epoch
    requires Tiles(frames, w.epoch, w.log, w.recv.cursor.applied, |w.log|)
    requires id != "" && id !in w.recv.staging && IsListing(batches, TableOf(w.log))
    ensures var d, s := ReceiveAll(w.recv, frames), ReceiveAll(w.recv, SnapshotAnswer(id, w.epoch, |w.log|, batches));
            && d.mirror == s.mirror == TableOf(w.log)
            && d.cursor.epoch == s.cursor.epoch && d.cursor.applied == s.cursor.applied == |w.log|
  {
    TilesAreApplied(w.recv, frames, w.epoch, w.log, w.recv.cursor.applied, |w.log|);
    assert w.log[w.recv.cursor.applied..|w.log|] == w.log[w.recv.cursor.applied..];
    ReplayReachesTable(w);
    SnapshotInstallsTable(w.recv, id, w.epoch, w.log, batches);
  }

  // --- Where the mirror can part from the table ----------------------------------------------------

  /** A run goes on with any enabled step. */
  lemma Extend(ws: seq<World>, steps: seq<Step>, s: Step)
    requires IsRun(ws, steps) && Enabled(ws[|ws| - 1], s)
    ensures IsRun(ws + [Next(ws[|ws| - 1], s)], steps + [s])
  {
    var ws', steps' := ws + [Next(ws[|ws| - 1], s)], steps + [s];
    forall i | 0 <= i < |steps'| ensures StepAt(ws', steps', i) {
      if i < |steps| { assert StepAt(ws, steps, i); }
    }
  }

  /** One write, and a snapshot of it on its way. */
  lemma SnapshotUnderway(w0: World, row: FileInfo, id: string) returns (ws: seq<World>, steps: seq<Step>)
    requires Initial(w0) && w0.recv.staging == map[] && id != ""
    ensures IsRun(ws, steps) && ws[0] == w0
    ensures var w := ws[|ws| - 1];
            && w.log == [row] && w.pruned == 0 && w.epoch == w0.epoch && w.recv == w0.recv
            && !w.anchored && SnapshotFrames(id, w0.epoch, Snapshot(1, 1, [[row]])) <= w.frames
            && SnapshotBegin(Begin(id, w0.epoch, 1)) in w.frames
  {
    OneRowTable(row);
    ws, steps := [w0], [];
    var w1 := Next(w0, Write(row));
    Extend(ws, steps, Write(row));
    ws, steps := [w0, w1], [Write(row)];
    assert w1.log == [row];
    var w2 := Next(w1, ReadMark);
    Extend(ws, steps, ReadMark);
    ws, steps := ws + [w2], steps + [ReadMark];
    var s := ReadRows(id, 1, [[row]]);
    assert Enabled(w2, s);
    Extend(ws, steps, s);
    ws, steps := ws + [Next(w2, s)], steps + [s];
  }

  /** The snapshot's first frame arrives, and then the connection breaks. */
  lemma InterruptSnapshot(ws0: seq<World>, steps0: seq<Step>, b: Begin) returns (ws: seq<World>, steps: seq<Step>)
    requires IsRun(ws0, steps0) && SnapshotBegin(b) in ws0[|ws0| - 1].frames && b.id != ""
    ensures IsRun(ws, steps) && ws[0] == ws0[0]
    ensures var w0, w := ws0[|ws0| - 1], ws[|ws| - 1];
            && w.log == w0.log && w.pruned == w0.pruned && w.epoch == w0.epoch
            && w.recv.mirror == w0.recv.mirror && w.recv.cursor.epoch == b.epoch && w.recv.cursor.applied == 0
  {
    var w0, s := ws0[|ws0| - 1], Deliver(SnapshotBegin(b), ALL_OK);
    Extend(ws0, steps0, s);
    var w1 := Next(w0, s);
    ws, steps := ws0 + [w1], steps0 + [s];
    Extend(ws, steps, RestartReceiver);
    ws, steps := ws + [Next(w1, RestartReceiver)], steps + [RestartReceiver];
  }

  /** The oldest sequence the journal retains, or 0. */
  function OldestSeq(w: World): nat { if w.pruned < |w.log| then w.pruned + 1 else 0 }

  /** The whole journal is sent as one delta and applied. */
  lemma AnswerWithOneDelta(ws0: seq<World>, steps0: seq<Step>) returns (ws: seq<World>, steps: seq<Step>)
    requires IsRun(ws0, steps0)
    requires var w := ws0[|ws0| - 1]; w.pruned == 0 && |w.log| > 0 && w.recv.cursor.epoch == w.epoch && w.recv.cursor.applied == 0
    ensures IsRun(ws, steps) && ws0 <= ws && steps0 + [SendDelta(1, |ws0[|ws0| - 1].log|)] <= steps
    ensures var w0, w := ws0[|ws0| - 1], ws[|ws| - 1];
            CaughtUp(w) && w.log == w0.log && w.recv.mirror == ApplyRows(w0.recv.mirror, w0.log)
  {
    var w0 := ws0[|ws0| - 1];
    var n := |w0.log|;
    Extend(ws0, steps0, SendDelta(1, n));
    var w1 := Next(w0, SendDelta(1, n));
    ws, steps := ws0 + [w1], steps0 + [SendDelta(1, n)];
    var d := DeltaBatch(w0.epoch, 1, n, SliceEntries(w0.log, 1, n));
    assert RowsOf(d.entries) == w0.log;
    var s := Deliver(d, ALL_OK);
    Extend(ws, steps, s);
    ws, steps := ws + [Next(w1, s)], steps + [s];
  }

  /**
   The first snapshot of a new epoch, interrupted after its first frame, leaves
   the cursor at sequence 0 of that epoch with the old mirror in place; the
   peer, which finds at moment `k` that its journal holds all that is missing,
   then answers with a delta, and the receiver ends caught up with a row the
   sender's table does not have.
   */
  lemma InterruptedFirstSnapshotKeepsStaleRow(w0: World, stale: FileInfo, row: FileInfo, id: string)
    returns (ws: seq<World>, steps: seq<Step>, k: nat)
    requires Initial(w0) && stale.relpath in w0.leftover && stale.relpath != row.relpath
    requires w0.recv.staging == map[] && id != ""
    ensures IsRun(ws, steps) && ws[0] == w0
    ensures var w := ws[|ws| - 1];
            CaughtUp(w) && stale.relpath in w.recv.mirror && stale.relpath !in TableOf(w.log)
    ensures k < |steps| && steps[k].SendDelta?
    ensures var w := ws[k];
            CanAnswerWithDeltas(w.recv.cursor.epoch, w.recv.cursor.applied, w.epoch, |w.log|, OldestSeq(w))
  {
    var ws1, steps1 := SnapshotUnderway(w0, row, id);
    var ws2, steps2 := InterruptSnapshot(ws1, steps1, Begin(id, w0.epoch, 1));
    ws, steps := AnswerWithOneDelta(ws2, steps2);
    k := |steps2|;
    assert ws[k] == ws2[k];
    ApplyRowsAt(w0.recv.mirror, [row], stale.relpath);
    OneRowTable(row);
  }

  lemma OneRowTable(row: FileInfo)
    ensures TableOf([row]) == map[row.relpath := row] && IsListing([[row]], TableOf([row]))
  {
    var log := [row];
    assert log[..0] == [];
    assert TableOf(log) == ApplyRows(map[], log[..0])[row.relpath := row];
    assert [log][0] == log && log[0] == row;
  }

  // --- Updates outside the sequenced stream ------------------------------------------------------------

  /** A snapshot of one row arrives whole. */
  lemma ReceiveOneRowSnapshot(ws0: seq<World>, steps0: seq<Step>, row: FileInfo, id: string)
    returns (ws: seq<World>, steps: seq<Step>)
    requires IsRun(ws0, steps0) && id != ""
    requires var w := ws0[|ws0| - 1];
             && w.log == [row] && w.pruned == 0 && id !in w.recv.staging
             && SnapshotFrames(id, w.epoch, Snapshot(1, 1, [[row]])) <= w.frames
    ensures IsRun(ws, steps) && ws[0] == ws0[0]
    ensures var w0, w := ws0[|ws0| - 1], ws[|ws| - 1];
            && w.log == [row] && w.pruned == 0 && w.epoch == w0.epoch && w.anchored
            && w.recv.cursor == Cursor(w.epoch, 1, "", 0) && w.recv.mirror == map[row.relpath := row]
  {
    var w0 := ws0[|ws0| - 1];
    var begin, batch, end := SnapshotBegin(Begin(id, w0.epoch, 1)), SnapshotBatch(id, 0, [row]), SnapshotEnd(id, 1);
    assert [[row]][0] == [row];
    assert {begin, batch, end} <= SnapshotFrames(id, w0.epoch, Snapshot(1, 1, [[row]]));
    Extend(ws0, steps0, Deliver(begin, ALL_OK));
    var w1 := Next(w0, Deliver(begin, ALL_OK));
    ws, steps := ws0 + [w1], steps0 + [Deliver(begin, ALL_OK)];
    Extend(ws, steps, Deliver(batch, ALL_OK));
    var w2 := Next(w1, Deliver(batch, ALL_OK));
    ws, steps := ws + [w2], steps + [Deliver(batch, ALL_OK)];
    StageBatchAt(w1.recv.staging, id, 0, [row]);
    OneRowTable(row);
    Extend(ws, steps, Deliver(end, ALL_OK));
    ws, steps := ws + [Next(w2, Deliver(end, ALL_OK))], steps + [Deliver(end, ALL_OK)];
  }

  /** A second write is sent as a delta and applied. */
  lemma FollowWithDelta(ws0: seq<World>, steps0: seq<Step>, first: FileInfo, second: FileInfo)
    returns (ws: seq<World>, steps: seq<Step>)
    requires IsRun(ws0, steps0)
    requires var w := ws0[|ws0| - 1];
             w.log == [first] && w.pruned == 0 && w.anchored && w.recv.cursor == Cursor(w.epoch, 1, "", 0)
    ensures IsRun(ws, steps) && ws[0] == ws0[0]
    ensures var w := ws[|ws| - 1]; w.log == [first, second] && w.anchored && CaughtUp(w)
  {
    var w0 := ws0[|ws0| - 1];
    Extend(ws0, steps0, Write(second));
    var w1 := Next(w0, Write(second));
    ws, steps := ws0 + [w1], steps0 + [Write(second)];
    assert w1.log == [first, second];
    Extend(ws, steps, SendDelta(2, 2));
    var w2 := Next(w1, SendDelta(2, 2));
    ws, steps := ws + [w2], steps + [SendDelta(2, 2)];
    var d := DeltaBatch(w0.epoch, 2, 2, SliceEntries(w1.log, 2, 2));
    Extend(ws, steps, Deliver(d, ALL_OK));
    ws, steps := ws + [Next(w2, Deliver(d, ALL_OK))], steps + [Deliver(d, ALL_OK)];
  }

  /**
   A run that ends caught up and past a snapshot with an old row in the mirror:
   an update was overtaken on its way by a newer write of the same path.
   */
  lemma OvertakenUpdateBreaksAgreement(w0: World, first: FileInfo, second: FileInfo, id: string)
    returns (ws: seq<World>, steps: seq<Step>)
    requires Initial(w0) && w0.recv.staging == map[] && id != "" && first.relpath == second.relpath && first != second
    ensures IsRun(ws, steps) && ws[0] == w0
    ensures var w := ws[|ws| - 1];
            && CaughtUp(w) && w.anchored && first.relpath in w.recv.mirror && first.relpath in TableOf(w.log)
            && w.recv.mirror[first.relpath] == first && TableOf(w.log)[first.relpath] == second
  {
    ws, steps := SnapshotUnderway(w0, first, id);
    ws, steps := ReceiveOneRowSnapshot(ws, steps, first, id);
    ws, steps := FollowWithDelta(ws, steps, first, second);
    var w, s := ws[|ws| - 1], Update([first]);
    assert first == w.log[0];
    Extend(ws, steps, s);
    ws, steps := ws + [Next(w, s)], steps + [s];
    ApplyRowsAt(w.recv.mirror, [first], first.relpath);
    assert LastWrite([first], first.relpath, 1) == 1;
    TableAt([first, second], first.relpath);
    assert LastWrite([first, second], first.relpath, 2) == 2;
  }

  // --- A snapshot whose first cursor write is lost ------------------------------------------------------

  /** Batches `n` to `m` of a snapshot. */
  function BatchesBetween(id: string, batches: seq<seq<FileInfo>>, n: nat, m: nat): (fs: seq<Frame>)
    requires n <= m <= |batches|
    ensures |fs| == m - n
  {
    seq(m - n, k requires 0 <= k < m - n => SnapshotBatch(id, n + k, batches[n + k]))
  }

  ghost predicate ListedIn(batches: seq<seq<FileInfo>>, n: nat, m: nat, p: string)
    requires n <= m <= |batches|
  {
    exists k, f :: n <= k < m && f in batches[k] && f.relpath == p
  }

  /** What was staged before, and batches `n` to `m`, and nothing else, are staged; the rest of the cursor is as found. */
  ghost predicate StagedOnTop(r: Receiver, found: Receiver, b: Begin, batches: seq<seq<FileInfo>>, n: nat, m: nat, t: Table)
    requires n <= m <= |batches|
  {
    var before, staged := Staged(found.staging, b.id), Staged(r.staging, b.id);
    && r.begin == Some(b) && r.cursor == found.cursor.(snapshotBatch := m)
    && (forall p :: p in staged ==> p in t && staged[p] == t[p])
    && (forall p :: p in staged <==> p in before || ListedIn(batches, n, m, p))
  }

  lemma OneMoreListed(batches: seq<seq<FileInfo>>, n: nat, m: nat, p: string)
    requires n <= m < |batches|
    ensures ListedIn(batches, n, m + 1, p) <==> ListedIn(batches, n, m, p) || exists f :: f in batches[m] && f.relpath == p
  {
    if f :| f in batches[m] && f.relpath == p {
      assert n <= m < m + 1 && f in batches[m];
    }
    if ListedIn(batches, n, m, p) {
      var k, f :| n <= k < m && f in batches[k] && f.relpath == p;
      assert n <= k < m + 1 && f in batches[k];
    }
  }

  /** Storing rows adds exactly their paths. */
  lemma {:induction false} StoredPaths(m: Table, files: seq<FileInfo>, p: string)
    ensures p in ApplyRows(m, files) <==> p in m || exists f :: f in files && f.relpath == p
  {
    if files != [] {
      var n := |files| - 1;
      StoredPaths(m, files[..n], p);
      assert files == files[..n] + [files[n]];
    }
  }

  lemma StageOneOnTop(r: Receiver, found: Receiver, b: Begin, batches: seq<seq<FileInfo>>, n: nat, m: nat, t: Table)
    requires n <= m < |batches| && IsListing(batches, t) && StagedOnTop(r, found, b, batches, n, m, t)
    ensures StagedOnTop(Handle(r, SnapshotBatch(b.id, m, batches[m]), ALL_OK).0, found, b, batches, n, m + 1, t)
  {
    StageBatchAt(r.staging, b.id, m, batches[m]);
    StoreListed(Staged(r.staging, b.id), batches[m], t);
    forall p ensures p in ApplyRows(Staged(r.staging, b.id), batches[m]) <==> p in Staged(found.staging, b.id) || ListedIn(batches, n, m + 1, p) {
      StoredPaths(Staged(r.staging, b.id), batches[m], p);
      OneMoreListed(batches, n, m, p);
    }
  }

  lemma {:induction false} ReceiveOneMore(r: Receiver, frames: seq<Frame>, f: Frame)
    ensures ReceiveAll(r, frames + [f]) == Handle(ReceiveAll(r, frames), f, ALL_OK).0
  {
    assert (frames + [f])[..|frames|] == frames;
  }

  lemma OneMoreBatch(id: string, batches: seq<seq<FileInfo>>, n: nat, m: nat)
    requires n <= m < |batches|
    ensures BatchesBetween(id, batches, n, m + 1) == BatchesBetween(id, batches, n, m) + [SnapshotBatch(id, m, batches[m])]
  {
  }

  lemma NothingOnTop(found: Receiver, b: Begin, batches: seq<seq<FileInfo>>, n: nat, t: Table)
    requires n <= |batches| && b.id != "" && found.cursor.snapshotBatch == n
    requires forall p :: p in Staged(found.staging, b.id) ==> p in t && Staged(found.staging, b.id)[p] == t[p]
    ensures StagedOnTop(OnBegin(found, b, false).0, found, b, batches, n, n, t)
  {
    assert forall p :: !ListedIn(batches, n, n, p);
  }

  lemma {:induction false} StageNextOnTop(begun: Receiver, found: Receiver, b: Begin, batches: seq<seq<FileInfo>>, n: nat, m: nat, t: Table)
    requires n <= m < |batches| && IsListing(batches, t)
    requires StagedOnTop(ReceiveAll(begun, BatchesBetween(b.id, batches, n, m)), found, b, batches, n, m, t)
    ensures StagedOnTop(ReceiveAll(begun, BatchesBetween(b.id, batches, n, m + 1)), found, b, batches, n, m + 1, t)
  {
    var before := BatchesBetween(b.id, batches, n, m);
    StageOneOnTop(ReceiveAll(begun, before), found, b, batches, n, m, t);
    OneMoreBatch(b.id, batches, n, m);
    ReceiveOneMore(begun, before, SnapshotBatch(b.id, m, batches[m]));
  }

  lemma {:induction false} StageRestOnTop(begun: Receiver, found: Receiver, b: Begin, batches: seq<seq<FileInfo>>, n: nat, m: nat, t: Table)
    requires n <= m <= |batches| && IsListing(batches, t) && StagedOnTop(begun, found, b, batches, n, n, t)
    ensures StagedOnTop(ReceiveAll(begun, BatchesBetween(b.id, batches, n, m)), found, b, batches, n, m, t)
    decreases m
  {
    if n < m {
      StageRestOnTop(begun, found, b, batches, n, m - 1, t);
      StageNextOnTop(begun, found, b, batches, n, m - 1, t);
    } else {
      assert BatchesBetween(b.id, batches, n, m) == [];
    }
  }

  /** Everything is staged in the end exactly when the first `n` batches were there already. */
  lemma AllStagedIf(s: Snapshot, log: seq<FileInfo>, before: Table, staged: Table, n: nat)
    requires s.taken <= |log| && IsListing(s.batches, TakenTable(log, s)) && n <= |s.batches| && StagedUpTo(s, before, n)
    requires PartOf(staged, log, s)
    requires forall p :: p in staged <==> p in before || ListedIn(s.batches, n, |s.batches|, p)
    ensures staged == TakenTable(log, s)
  {
    forall k, f | 0 <= k < |s.batches| && f in s.batches[k] ensures f.relpath in staged && staged[f.relpath] == f {
      assert k >= n ==> ListedIn(s.batches, n, |s.batches|, f.relpath);
    }
    StagedIsTable(s, log, staged);
  }

  lemma AllStagedOnlyIf(s: Snapshot, log: seq<FileInfo>, before: Table, n: nat)
    requires s.taken <= |log| && IsListing(s.batches, TakenTable(log, s)) && OnceEach(s.batches) && n <= |s.batches|
    requires PartOf(before, log, s)
    requires forall p :: p in TakenTable(log, s) ==> p in before || ListedIn(s.batches, n, |s.batches|, p)
    ensures StagedUpTo(s, before, n)
  {
    forall k, f | 0 <= k < n && f in s.batches[k] ensures f.relpath in before && before[f.relpath] == f {
      NotListedLater(s.batches, n, k, f);
    }
  }

  lemma NotListedLater(batches: seq<seq<FileInfo>>, n: nat, k: nat, f: FileInfo)
    requires OnceEach(batches) && k < n <= |batches| && f in batches[k]
    ensures !ListedIn(batches, n, |batches|, f.relpath)
  {
  }

  /** The receiver just before the end frame of a snapshot whose first cursor write was lost. */
  ghost function BeforeEnd(w: World, id: string): Receiver
    requires id in w.snaps && w.recv.cursor.snapshotBatch <= |w.snaps[id].batches|
  {
    var s, n := w.snaps[id], w.recv.cursor.snapshotBatch;
    ReceiveAll(OnBegin(w.recv, Begin(id, w.epoch, s.high), false).0, BatchesBetween(id, s.batches, n, |s.batches|))
  }

  lemma BeforeEndStagesAllIff(w: World, id: string)
    requires Base(w) && id in w.snaps && id != "" && OnceEach(w.snaps[id].batches)
    requires w.recv.cursor.snapshotBatch <= |w.snaps[id].batches|
    ensures w.snaps[id].taken <= |w.log|
    ensures var s, r := w.snaps[id], BeforeEnd(w, id);
            && r.begin == Some(Begin(id, w.epoch, s.high)) && r.cursor.snapshotBatch == |s.batches|
            && (Staged(r.staging, id) == TakenTable(w.log, s)
                <==> StagedUpTo(s, Staged(w.recv.staging, id), w.recv.cursor.snapshotBatch))
  {
    var s, n, before := w.snaps[id], w.recv.cursor.snapshotBatch, Staged(w.recv.staging, id);
    assert SnapOk(w.log, s);
    assert PartOf(before, w.log, s);
    var b := Begin(id, w.epoch, s.high);
    NothingOnTop(w.recv, b, s.batches, n, TakenTable(w.log, s));
    StageRestOnTop(OnBegin(w.recv, b, false).0, w.recv, b, s.batches, n, |s.batches|, TakenTable(w.log, s));
    var staged := Staged(BeforeEnd(w, id).staging, id);
    if StagedUpTo(s, before, n) {
      AllStagedIf(s, w.log, before, staged, n);
    }
    if staged == TakenTable(w.log, s) {
      AllStagedOnlyIf(s, w.log, before, n);
    }
  }

  /**
   A snapshot whose first cursor write is lost, received whole from the stored
   count on, is committed; it installs the listed table if and only if that many
   leading batches were already staged under its id. A count of 0 always is.
   */
  lemma LostBeginInstallsTableIff(w: World, id: string)
    requires Base(w) && id in w.snaps && id != "" && OnceEach(w.snaps[id].batches)
    requires w.recv.cursor.snapshotBatch <= |w.snaps[id].batches|
    ensures var s, n := w.snaps[id], w.recv.cursor.snapshotBatch;
            var begun := OnBegin(w.recv, Begin(id, w.epoch, s.high), false).0;
            var got := ReceiveAll(begun, BatchesBetween(id, s.batches, n, |s.batches|) + [SnapshotEnd(id, |s.batches|)]);
            && got.cursor == Cursor(w.epoch, s.high, "", 0)
            && s.taken <= |w.log| && (got.mirror == TakenTable(w.log, s) <==> StagedUpTo(s, Staged(w.recv.staging, id), n))
  {
    var s := w.snaps[id];
    var rest, end := BatchesBetween(id, s.batches, w.recv.cursor.snapshotBatch, |s.batches|), SnapshotEnd(id, |s.batches|);
    BeforeEndStagesAllIff(w, id);
    ReceiveOneMore(OnBegin(w.recv, Begin(id, w.epoch, s.high), false).0, rest, end);
  }

  /** Two writes, and two snapshots of them in two batches on their way. */
  lemma TwoSnapshotsUnderway(w0: World, a: FileInfo, b: FileInfo, id1: string, id2: string)
    returns (ws: seq<World>, steps: seq<Step>)
    requires Initial(w0) && w0.recv.staging == map[] && id1 != "" && id2 != "" && id1 != id2 && a.relpath != b.relpath
    ensures IsRun(ws, steps) && ws[0] == w0
    ensures var w, s := ws[|ws| - 1], Snapshot(2, 2, [[a], [b]]);
            && w.log == [a, b] && w.epoch == w0.epoch && w.recv == w0.recv
            && SnapshotFrames(id1, w.epoch, s) <= w.frames && SnapshotFrames(id2, w.epoch, s) <= w.frames
  {
    ws, steps := [w0], [];
    Extend(ws, steps, Write(a));
    var w1 := Next(w0, Write(a));
    ws, steps := ws + [w1], steps + [Write(a)];
    Extend(ws, steps, Write(b));
    var w2 := Next(w1, Write(b));
    ws, steps := ws + [w2], steps + [Write(b)];
    assert w2.log == [a, b];
    TwoRowTable(a, b);
    Extend(ws, steps, ReadMark);
    var w3 := Next(w2, ReadMark);
    ws, steps := ws + [w3], steps + [ReadMark];
    var s1, s2 := ReadRows(id1, 2, [[a], [b]]), ReadRows(id2, 2, [[a], [b]]);
    Extend(ws, steps, s1);
    var w4 := Next(w3, s1);
    ws, steps := ws + [w4], steps + [s1];
    Extend(ws, steps, s2);
    ws, steps := ws + [Next(w4, s2)], steps + [s2];
  }

  lemma TwoRowTable(a: FileInfo, b: FileInfo)
    requires a.relpath != b.relpath
    ensures TableOf([a, b]) == map[a.relpath := a, b.relpath := b]
    ensures IsListing([[a], [b]], TableOf([a, b])) && OnceEach([[a], [b]])
  {
    OneRowTable(a);
    assert [a, b][..1] == [a];
    var batches := [[a], [b]];
    assert a in batches[0] && b in batches[1];
  }

  /**
   A run that ends caught up and past a snapshot with rows missing: one
   snapshot broke off after its first batch, the cursor write that began the
   next was lost, and the count left by the first skipped a batch of the second.
   */
  lemma LostBeginSkipsBatches(w0: World, a: FileInfo, b: FileInfo, id1: string, id2: string)
    returns (ws: seq<World>, steps: seq<Step>)
    requires Initial(w0) && w0.recv.staging == map[] && id1 != "" && id2 != "" && id1 != id2 && a.relpath != b.relpath
    ensures IsRun(ws, steps) && ws[0] == w0
    ensures var w := ws[|ws| - 1];
            CaughtUp(w) && w.anchored && a.relpath in TableOf(w.log) && a.relpath !in w.recv.mirror
  {
    ws, steps := TwoSnapshotsUnderway(w0, a, b, id1, id2);
    ws, steps := BreakOffAfterOneBatch(ws, steps, a, b, id1, id2);
    ws, steps := LoseBeginAndCommit(ws, steps, a, b, id2);
    TwoRowTable(a, b);
  }

  lemma BreakOffAfterOneBatch(ws0: seq<World>, steps0: seq<Step>, a: FileInfo, b: FileInfo, id1: string, id2: string)
    returns (ws: seq<World>, steps: seq<Step>)
    requires IsRun(ws0, steps0) && id1 != "" && id1 != id2
    requires var w := ws0[|ws0| - 1];
             SnapshotFrames(id1, w.epoch, Snapshot(2, 2, [[a], [b]])) <= w.frames && id2 !in w.recv.staging
    ensures IsRun(ws, steps) && ws[0] == ws0[0]
    ensures var w0, w := ws0[|ws0| - 1], ws[|ws| - 1];
            && w.log == w0.log && w.epoch == w0.epoch && w.frames == w0.frames
            && w.recv.cursor.snapshotBatch == 1 && id2 !in w.recv.staging
  {
    var w0 := ws0[|ws0| - 1];
    var begin, batch := SnapshotBegin(Begin(id1, w0.epoch, 2)), SnapshotBatch(id1, 0, [a]);
    assert [[a], [b]][0] == [a];
    assert {begin, batch} <= SnapshotFrames(id1, w0.epoch, Snapshot(2, 2, [[a], [b]]));
    Extend(ws0, steps0, Deliver(begin, ALL_OK));
    var w1 := Next(w0, Deliver(begin, ALL_OK));
    ws, steps := ws0 + [w1], steps0 + [Deliver(begin, ALL_OK)];
    Extend(ws, steps, Deliver(batch, ALL_OK));
    ws, steps := ws + [Next(w1, Deliver(batch, ALL_OK))], steps + [Deliver(batch, ALL_OK)];
  }

  lemma LoseBeginAndCommit(ws0: seq<World>, steps0: seq<Step>, a: FileInfo, b: FileInfo, id: string)
    returns (ws: seq<World>, steps: seq<Step>)
    requires IsRun(ws0, steps0) && id != ""
    requires var w := ws0[|ws0| - 1];
             && SnapshotFrames(id, w.epoch, Snapshot(2, 2, [[a], [b]])) <= w.frames
             && w.recv.cursor.snapshotBatch == 1 && id !in w.recv.staging
    ensures IsRun(ws, steps) && ws[0] == ws0[0]
    ensures var w0, w := ws0[|ws0| - 1], ws[|ws| - 1];
            && w.log == w0.log && w.epoch == w0.epoch && w.anchored
            && w.recv.cursor == Cursor(w.epoch, 2, "", 0) && w.recv.mirror == map[b.relpath := b]
  {
    var w0 := ws0[|ws0| - 1];
    var lost := Deliver(SnapshotBegin(Begin(id, w0.epoch, 2)), StoreOutcome(true, false, true));
    var batch, end := SnapshotBatch(id, 1, [b]), SnapshotEnd(id, 2);
    assert [[a], [b]][1] == [b];
    assert {lost.frame, batch, end} <= SnapshotFrames(id, w0.epoch, Snapshot(2, 2, [[a], [b]]));
    Extend(ws0, steps0, lost);
    var w1 := Next(w0, lost);
    ws, steps := ws0 + [w1], steps0 + [lost];
    Extend(ws, steps, Deliver(batch, ALL_OK));
    var w2 := Next(w1, Deliver(batch, ALL_OK));
    ws, steps := ws + [w2], steps + [Deliver(batch, ALL_OK)];
    StageBatchAt(w1.recv.staging, id, 1, [b]);
    OneRowTable(b);
    Extend(ws, steps, Deliver(end, ALL_OK));
    ws, steps := ws + [Next(w2, Deliver(end, ALL_OK))], steps + [Deliver(end, ALL_OK)];
  }
}

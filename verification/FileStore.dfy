/**
 The sending end of index replication: a share's table, its sequence counter
 and the retained part of its change journal, and the answer to a peer that
 asks to be brought up to date.
 */
module FileStore {
  import opened Reconcile
  import opened IndexLog
  import opened IndexReceiver
  import opened Mirror
  import BatchPlan

  datatype JournalRow = JournalRow(seqno: nat, row: FileInfo, createdAt: int)

  /** The journal holds the last `|journal|` writes, numbered and stamped in order. */
  ghost predicate IsSuffix(journal: seq<JournalRow>, log: seq<FileInfo>) {
    && |journal| <= |log|
    && (forall i :: 0 <= i < |journal| ==>
          && journal[i].seqno == |log| - |journal| + i + 1
          && journal[i].row == log[|log| - |journal| + i])
    && InTimeOrder(journal)
  }

  function Kept(journal: seq<JournalRow>, before: int): (r: seq<JournalRow>)
    ensures |r| <= |journal|
  {
    if journal == [] then []
    else
      var n := |journal| - 1;
      Kept(journal[..n], before) + if journal[n].createdAt >= before then [journal[n]] else []
  }

  lemma {:induction false} KeptElements(journal: seq<JournalRow>, before: int)
    ensures forall j :: j in Kept(journal, before) <==> j in journal && j.createdAt >= before
  {
    if journal != [] {
      var n := |journal| - 1;
      KeptElements(journal[..n], before);
      assert journal == journal[..n] + [journal[n]];
    }
  }

  ghost predicate InTimeOrder(journal: seq<JournalRow>) {
    forall i, j :: 0 <= i < j < |journal| ==> journal[i].createdAt <= journal[j].createdAt
  }

  lemma {:induction false} KeptNone(journal: seq<JournalRow>, before: int)
    requires InTimeOrder(journal) && (journal != [] ==> journal[|journal| - 1].createdAt < before)
    ensures Kept(journal, before) == []
  {
    if journal != [] { KeptNone(journal[..|journal| - 1], before); }
  }

  /** With time stamps in order, dropping the old rows drops a prefix. */
  lemma {:induction false} KeptIsASuffix(journal: seq<JournalRow>, before: int)
    requires InTimeOrder(journal)
    ensures Kept(journal, before) == journal[|journal| - |Kept(journal, before)|..]
  {
    if journal != [] {
      var n := |journal| - 1;
      if journal[n].createdAt < before {
        KeptNone(journal, before);
      } else {
        KeptIsASuffix(journal[..n], before);
        assert journal == journal[..n] + [journal[n]];
      }
    }
  }

  lemma {:induction false} KeptStep(journal: seq<JournalRow>, i: nat, before: int)
    requires i < |journal|
    ensures Kept(journal[..i + 1], before)
         == Kept(journal[..i], before) + if journal[i].createdAt >= before then [journal[i]] else []
  {
    assert journal[..i + 1][..i] == journal[..i];
  }

  class Store {
    var files: Table
    var nextSeq: nat
    var journal: seq<JournalRow>
    ghost var log: seq<FileInfo>

    ghost predicate Valid()
      reads this
    {
      files == TableOf(log) && nextSeq == |log| + 1 && IsSuffix(journal, log)
    }

    /** Sequence of the newest journal row that has been dropped. */
    ghost function Pruned(): int
      reads this
    {
      |log| - |journal|
    }

    constructor ()
      ensures Valid() && log == []
    {
      files, nextSeq, journal, log := map[], 1, [], [];
    }

    method PutFile(row: FileInfo, now: int)
      requires Valid() && forall j :: j in journal ==> j.createdAt <= now
      modifies this
      ensures Valid() && log == old(log) + [row] && Pruned() == old(Pruned())
      ensures files == old(files)[row.relpath := row]
    {
      files := files[row.relpath := row];
      journal := journal + [JournalRow(nextSeq, row, now)];
      nextSeq := nextSeq + 1;
      log := log + [row];
      assert log[..|log| - 1] == old(log);
    }

    method PruneJournal(before: int)
      requires Valid()
      modifies this`journal
      ensures Valid() && Pruned() >= old(Pruned())
      ensures journal == Kept(old(journal), before)
    {
      var kept, rows := [], journal;
      for i := 0 to |rows|
        invariant kept == Kept(rows[..i], before) && journal == rows
      {
        KeptStep(rows, i, before);
        if rows[i].createdAt >= before { kept := kept + [rows[i]]; }
      }
      assert rows[..|rows|] == rows;
      KeptIsASuffix(rows, before);
      journal := kept;
    }

    method ShareState() returns (high: nat)
      requires Valid()
      ensures high == |log|
    {
      high := nextSeq;
      if high > 0 { high := high - 1; }
    }

    method OldestJournalSeq() returns (n: nat)
      requires Valid()
      ensures n == if journal == [] then 0 else Pruned() + 1
    {
      n := if journal == [] then 0 else journal[0].seqno;
    }

    /** The retained rows after `after`, oldest first, at most `limit` of them. */
    method JournalSince(after: nat, limit: nat) returns (rows: seq<JournalRow>)
      requires Valid()
      ensures var skip := if after <= Pruned() then 0 else after - Pruned();
              if skip >= |journal| then rows == []
              else rows == journal[skip..if skip + limit <= |journal| then skip + limit else |journal|]
    {
      var i := 0;
      while i < |journal| && journal[i].seqno <= after
        invariant 0 <= i <= |journal| && (i > 0 ==> journal[i - 1].seqno <= after)
      {
        i := i + 1;
      }
      if i >= |journal| { return []; }
      rows := journal[i..if i + limit <= |journal| then i + limit else |journal|];
    }
  }

  // --- Answering a peer ---------------------------------------------------------------------

  predicate CanAnswerWithDeltas(reqEpoch: string, applied: nat, epoch: string, high: nat, oldest: nat) {
    if reqEpoch != epoch || applied > high then false
    else if applied == high then true
    else oldest > 0 && oldest <= applied + 1
  }

  predicate Retains(journal: seq<JournalRow>, s: int) {
    exists i :: 0 <= i < |journal| && journal[i].seqno == s
  }

  /** Deltas are possible exactly when the peer is in the epoch and everything it lacks is still in the journal. */
  lemma CanAnswerIffJournalHoldsTheRest(reqEpoch: string, applied: nat, epoch: string,
                                        log: seq<FileInfo>, journal: seq<JournalRow>)
    requires IsSuffix(journal, log)
    ensures CanAnswerWithDeltas(reqEpoch, applied, epoch, |log|, if journal == [] then 0 else journal[0].seqno)
       <==> reqEpoch == epoch && applied <= |log| && forall s :: applied < s <= |log| ==> Retains(journal, s)
  {
    var pruned := |log| - |journal|;
    forall s | pruned < s <= |log| ensures Retains(journal, s) {
      assert journal[s - pruned - 1].seqno == s;
    }
    if applied < |log| {
      assert Retains(journal, applied + 1) ==> pruned <= applied;
    }
  }

  /** The frame carries the writes from its own start up to `upto`. */
  ghost predicate IsTile(f: Frame, epoch: string, log: seq<FileInfo>, upto: nat)
    requires upto <= |log|
  {
    f.DeltaBatch? && 1 <= f.from <= f.to == upto && f == DeltaBatch(epoch, f.from, upto, SliceEntries(log, f.from, upto))
  }

  /** `frames` carry the writes `(applied, upto]` in order, without gap or overlap. */
  ghost predicate Tiles(frames: seq<Frame>, epoch: string, log: seq<FileInfo>, applied: nat, upto: nat) {
    && applied <= upto <= |log|
    && if frames == [] then applied == upto
       else
         var n := |frames| - 1;
         && IsTile(frames[n], epoch, log, upto)
         && Tiles(frames[..n], epoch, log, applied, frames[n].from - 1)
  }

  lemma {:induction false} TilesAppend(frames: seq<Frame>, f: Frame, epoch: string, log: seq<FileInfo>, applied: nat, mid: nat, upto: nat)
    requires Tiles(frames, epoch, log, applied, mid) && upto <= |log| && IsTile(f, epoch, log, upto) && f.from == mid + 1
    ensures Tiles(frames + [f], epoch, log, applied, upto)
  {
    var all := frames + [f];
    assert all[|all| - 1] == f && all[..|all| - 1] == frames;
  }

  function PageRows(page: seq<JournalRow>): (rows: seq<FileInfo>)
    ensures |rows| == |page| && forall i :: 0 <= i < |page| ==> rows[i] == page[i].row
  {
    seq(|page|, i requires 0 <= i < |page| => page[i].row)
  }

  function PageEntries(page: seq<JournalRow>): (es: seq<Entry>)
    ensures |es| == |page| && forall i :: 0 <= i < |page| ==> es[i] == Entry(page[i].seqno, page[i].row)
  {
    seq(|page|, i requires 0 <= i < |page| => Entry(page[i].seqno, page[i].row))
  }

  datatype Answer = Deltas(frames: seq<Frame>) | NeedsSnapshot | EntryTooLarge

  predicate IsIgnoredRow(ignored: (string, bool) -> bool, row: FileInfo) { ignored(row.relpath, row.ftype == Dir) }

  predicate HasIgnored(ignored: (string, bool) -> bool, rows: seq<JournalRow>) {
    exists i :: 0 <= i < |rows| && IsIgnoredRow(ignored, rows[i].row)
  }

  ghost predicate IsPage(page: seq<JournalRow>, log: seq<FileInfo>, at: nat) {
    at + |page| <= |log| && forall i :: 0 <= i < |page| ==> page[i].seqno == at + i + 1 && page[i].row == log[at + i]
  }

  lemma PageSplits(page: seq<JournalRow>, log: seq<FileInfo>, at: nat, n: nat)
    requires IsPage(page, log, at) && 0 < n <= |page|
    ensures PageEntries(page[..n]) == SliceEntries(log, at + 1, at + n)
  {
  }

  /** Tiles of a log are tiles of any log that continues it. */
  lemma {:induction false} TilesGrow(frames: seq<Frame>, epoch: string, log: seq<FileInfo>, log': seq<FileInfo>, applied: nat, upto: nat)
    requires Tiles(frames, epoch, log, applied, upto) && log <= log'
    ensures Tiles(frames, epoch, log', applied, upto)
    decreases |frames|
  {
    if frames != [] {
      var n := |frames| - 1;
      assert SliceEntries(log, frames[n].from, upto) == SliceEntries(log', frames[n].from, upto);
      TilesGrow(frames[..n], epoch, log, log', applied, frames[n].from - 1);
    }
  }

  lemma {:induction false} TilesJoin(a: seq<Frame>, b: seq<Frame>, epoch: string, log: seq<FileInfo>, applied: nat, mid: nat, upto: nat)
    requires Tiles(a, epoch, log, applied, mid) && Tiles(b, epoch, log, mid, upto)
    ensures Tiles(a + b, epoch, log, applied, upto)
    decreases |b|
  {
    if b == [] {
      assert a + b == a;
    } else {
      var n := |b| - 1;
      TilesJoin(a, b[..n], epoch, log, applied, mid, b[n].from - 1);
      TilesAppend(a + b[..n], b[n], epoch, log, applied, b[n].from - 1, upto);
      assert a + b == (a + b[..n]) + [b[n]];
    }
  }

  /** No tile begins before the tiling does. */
  ghost predicate AllFrom(frames: seq<Frame>, first: nat) {
    forall i :: 0 <= i < |frames| ==> frames[i].DeltaBatch? && frames[i].from >= first
  }

  lemma {:induction false} TilesBeginAfter(frames: seq<Frame>, epoch: string, log: seq<FileInfo>, applied: nat, upto: nat)
    requires Tiles(frames, epoch, log, applied, upto)
    ensures AllFrom(frames, applied + 1)
    decreases |frames|
  {
    if frames != [] {
      var n := |frames| - 1;
      TilesBeginAfter(frames[..n], epoch, log, applied, frames[n].from - 1);
      assert forall i :: 0 <= i < n ==> frames[..n][i] == frames[i];
    }
  }

  // --- One page ---------------------------------------------------------------------------------

  /** A row no frame is promised for: it breaks a limit of the wire, or the envelope does. */
  predicate TooLong(share: string, epoch: string, row: FileInfo) {
    !BatchPlan.WithinWireLimits(row) || |share| > BatchPlan.MAX_ID || |epoch| > BatchPlan.MAX_ID
  }

  /** The frame encodes within the target. */
  ghost predicate Fits(f: Frame, share: string) {
    f.DeltaBatch? && f.entries != [] && BatchPlan.DeltaMessageSize(share, f.epoch, f.from, RowsOf(f.entries)) <= BatchPlan.TARGET
  }

  ghost predicate AllFit(frames: seq<Frame>, share: string) {
    forall i :: 0 <= i < |frames| ==> Fits(frames[i], share)
  }

  /** No frame carries an ignored row. */
  ghost predicate NoneIgnored(frames: seq<Frame>, ignored: (string, bool) -> bool) {
    forall i :: 0 <= i < |frames| ==> CarriesNoneIgnored(frames[i], ignored)
  }

  ghost predicate CarriesNoneIgnored(f: Frame, ignored: (string, bool) -> bool) {
    f.DeltaBatch? && forall k :: 0 <= k < |f.entries| ==> !IsIgnoredRow(ignored, f.entries[k].row)
  }

  /** No row of the log from `from` up to `upto` is ignored. */
  ghost predicate CleanRange(ignored: (string, bool) -> bool, log: seq<FileInfo>, from: nat, upto: nat) {
    forall k :: from <= k < upto && k < |log| ==> !IsIgnoredRow(ignored, log[k])
  }

  /** Frames carry nothing but rows of the range they tile. */
  lemma {:induction false} TilesCarryTheirRange(frames: seq<Frame>, epoch: string, log: seq<FileInfo>, at: nat, upto: nat,
                                                ignored: (string, bool) -> bool)
    requires Tiles(frames, epoch, log, at, upto) && CleanRange(ignored, log, at, upto)
    ensures NoneIgnored(frames, ignored)
    decreases |frames|
  {
    if frames != [] {
      var n := |frames| - 1;
      TilesBeginAfter(frames, epoch, log, at, upto);
      TilesCarryTheirRange(frames[..n], epoch, log, at, frames[n].from - 1, ignored);
      forall i | 0 <= i < |frames| ensures CarriesNoneIgnored(frames[i], ignored) {
        if i < n { assert frames[..n][i] == frames[i]; }
      }
    }
  }

  /** How much of a page goes into its next frame. */
  method PageCut(share: string, epoch: string, page: seq<JournalRow>) returns (n: nat)
    requires page != []
    ensures n <= |page|
    ensures n > 0 ==> BatchPlan.DeltaMessageSize(share, epoch, page[0].seqno, PageRows(page)[..n]) <= BatchPlan.TARGET
    ensures n == 0 ==> TooLong(share, epoch, page[0].row)
  {
    n := BatchPlan.DeltaBatchLen(share, epoch, page[0].seqno, PageRows(page));
    assert PageRows(page)[..1] == [page[0].row];
    if !TooLong(share, epoch, page[0].row) {
      BatchPlan.WireDeltaIsInBudget(share, epoch, page[0].seqno, page[0].seqno + |page| - 1, page[0].row);
    }
  }

  /** The first `n` rows of the page as one more frame. */
  method AddFrame(epoch: string, page: seq<JournalRow>, n: nat, sent: seq<Frame>,
                  ghost log: seq<FileInfo>, ghost applied: nat, ghost mid: nat) returns (frames: seq<Frame>)
    requires IsPage(page, log, mid) && 0 < n <= |page| && Tiles(sent, epoch, log, applied, mid)
    ensures Tiles(frames, epoch, log, applied, mid + n)
    ensures frames == sent + [DeltaBatch(epoch, page[0].seqno, page[n - 1].seqno, PageEntries(page[..n]))]
  {
    var entries := PageEntries(page[..n]);
    PageSplits(page, log, mid, n);
    var f := DeltaBatch(epoch, entries[0].seqno, entries[n - 1].seqno, entries);
    TilesAppend(sent, f, epoch, log, applied, mid, mid + n);
    frames := sent + [f];
  }

  lemma FrameFits(share: string, epoch: string, page: seq<JournalRow>, n: nat, sent: seq<Frame>)
    requires 0 < n <= |page| && AllFit(sent, share)
    requires BatchPlan.DeltaMessageSize(share, epoch, page[0].seqno, PageRows(page)[..n]) <= BatchPlan.TARGET
    ensures AllFit(sent + [DeltaBatch(epoch, page[0].seqno, page[n - 1].seqno, PageEntries(page[..n]))], share)
  {
    assert RowsOf(PageEntries(page[..n])) == PageRows(page)[..n];
  }

  /** As much of the page as one frame takes, or nothing if not even its first row fits. */
  method SendOne(share: string, epoch: string, page: seq<JournalRow>, sent: seq<Frame>,
                 ghost log: seq<FileInfo>, ghost applied: nat, ghost mid: nat) returns (n: nat, frames: seq<Frame>)
    requires page != [] && IsPage(page, log, mid) && Tiles(sent, epoch, log, applied, mid)
    requires AllFit(sent, share)
    ensures n <= |page| && (n == 0 ==> TooLong(share, epoch, page[0].row))
    ensures Tiles(frames, epoch, log, applied, mid + n)
    ensures AllFit(frames, share)
  {
    n := PageCut(share, epoch, page);
    frames := sent;
    if n > 0 {
      frames := AddFrame(epoch, page, n, sent, log, applied, mid);
      FrameFits(share, epoch, page, n, sent);
    }
  }

  /** One page of the journal as one or more frames. */
  method SendPage(share: string, epoch: string, rows: seq<JournalRow>, ghost log: seq<FileInfo>, ghost at: nat)
    returns (ok: bool, frames: seq<Frame>)
    requires IsPage(rows, log, at)
    ensures ok ==> Tiles(frames, epoch, log, at, at + |rows|)
    ensures AllFit(frames, share)
    ensures !ok ==> exists i :: 0 <= i < |rows| && TooLong(share, epoch, rows[i].row)
  {
    frames := [];
    var k := 0;
    while k < |rows|
      invariant k <= |rows|
      invariant Tiles(frames, epoch, log, at, at + k)
      invariant AllFit(frames, share)
    {
      RestIsPage(rows, log, at, k);
      var n;
      n, frames := SendOne(share, epoch, rows[k..], frames, log, at, at + k);
      if n == 0 { return false, frames; }
      k := k + n;
    }
    ok := true;
  }

  lemma RestIsPage(rows: seq<JournalRow>, log: seq<FileInfo>, at: nat, k: nat)
    requires IsPage(rows, log, at) && k < |rows|
    ensures IsPage(rows[k..], log, at + k) && |rows[k..]| == |rows| - k && rows[k..][0] == rows[k]
  {
  }

  // --- The whole answer, while the store goes on changing -----------------------------------------

  /** Any number of writes and prunings by others. */
  method Meanwhile(store: Store)
    requires store.Valid()
    modifies store
    ensures store.Valid() && old(store.log) <= store.log && store.Pruned() >= old(store.Pruned())
  {
    var n: int := *;
    for i := 0 to if n > 0 then n else 0
      invariant store.Valid() && old(store.log) <= store.log && store.Pruned() >= old(store.Pruned())
    {
      if * {
        var row: FileInfo, now: int := *, *;
        if store.journal == [] || store.journal[|store.journal| - 1].createdAt <= now { store.PutFile(row, now); }
      } else {
        var before: int := *;
        store.PruneJournal(before);
      }
    }
  }

  /** The next page: consecutive rows of the journal from the first one left after `at`, none only if there is none. */
  method NextPage(store: Store, at: nat, pageSize: nat) returns (rows: seq<JournalRow>, ghost start: nat)
    requires store.Valid() && at <= |store.log| && pageSize > 0
    ensures at <= start && (start > at ==> start == store.Pruned()) && IsPage(rows, store.log, start) && |rows| <= pageSize
    ensures |rows| < pageSize ==> start + |rows| == |store.log|
    ensures rows != [] ==> rows[|rows| - 1].seqno == start + |rows|
  {
    rows := store.JournalSince(at, pageSize);
    start := if at <= store.Pruned() then store.Pruned() else at;
  }

  /**
   Frames sent so far, the journal having been read up to `at`: the first `cut`
   tile `(applied, to]`. What follows them begins beyond a gap, and there is one
   only where the journal was pruned past `to`.
   */
  ghost predicate SentUpTo(frames: seq<Frame>, epoch: string, log: seq<FileInfo>, pruned: int, applied: nat, at: nat, cut: nat, to: nat) {
    && cut <= |frames| && to <= at <= |log|
    && Tiles(frames[..cut], epoch, log, applied, to)
    && AllFrom(frames[cut..], to + 2)
    && (to < at ==> pruned > to)
    && (cut < |frames| ==> to < at)
  }

  lemma SentStays(frames: seq<Frame>, epoch: string, log: seq<FileInfo>, log': seq<FileInfo>, pruned: int, pruned': int,
                  applied: nat, at: nat, cut: nat, to: nat)
    requires SentUpTo(frames, epoch, log, pruned, applied, at, cut, to) && log <= log' && pruned <= pruned'
    ensures SentUpTo(frames, epoch, log', pruned', applied, at, cut, to)
  {
    TilesGrow(frames[..cut], epoch, log, log', applied, to);
  }

  /** One more page continues the tiles, or lies beyond the gap. */
  lemma SentGrows(frames: seq<Frame>, page: seq<Frame>, epoch: string, log: seq<FileInfo>, pruned: int,
                  applied: nat, at: nat, cut: nat, to: nat, start: nat, end: nat)
    returns (cut': nat, to': nat)
    requires SentUpTo(frames, epoch, log, pruned, applied, at, cut, to)
    requires at <= start && (start > at ==> start == pruned) && Tiles(page, epoch, log, start, end)
    ensures SentUpTo(frames + page, epoch, log, pruned, applied, end, cut', to')
  {
    var all := frames + page;
    if to == start {
      assert frames[..cut] == frames && all[..|all|] == all && all[|all|..] == [];
      TilesJoin(frames, page, epoch, log, applied, start, end);
      cut', to' := |all|, end;
    } else {
      TilesBeginAfter(page, epoch, log, start, end);
      assert all[..cut] == frames[..cut] && all[cut..] == frames[cut..] + page;
      cut', to' := cut, to;
    }
  }

  ghost predicate IgnoredAfter(ignored: (string, bool) -> bool, log: seq<FileInfo>, applied: nat) {
    exists i :: applied <= i < |log| && IsIgnoredRow(ignored, log[i])
  }

  ghost predicate TooLongAfter(share: string, epoch: string, log: seq<FileInfo>, applied: nat) {
    exists i :: applied <= i < |log| && TooLong(share, epoch, log[i])
  }

  /** The frames of one page, or why there is no answer with deltas. */
  method AnswerPage(share: string, epoch: string, rows: seq<JournalRow>, ignored: (string, bool) -> bool,
                    ghost log: seq<FileInfo>, ghost start: nat, ghost applied: nat) returns (answer: Answer)
    requires IsPage(rows, log, start) && applied <= start
    ensures answer.Deltas? ==> Tiles(answer.frames, epoch, log, start, start + |rows|)
    ensures answer.Deltas? ==> AllFit(answer.frames, share) && NoneIgnored(answer.frames, ignored)
    ensures answer.Deltas? ==> CleanRange(ignored, log, start, start + |rows|)
    ensures answer.NeedsSnapshot? ==> IgnoredAfter(ignored, log, applied)
    ensures answer.EntryTooLarge? ==> TooLongAfter(share, epoch, log, applied)
  {
    if HasIgnored(ignored, rows) {
      ghost var i :| 0 <= i < |rows| && IsIgnoredRow(ignored, rows[i].row);
      assert IsIgnoredRow(ignored, log[start + i]);
      return NeedsSnapshot;
    }
    var ok, page := SendPage(share, epoch, rows, log, start);
    if !ok {
      ghost var i :| 0 <= i < |rows| && TooLong(share, epoch, rows[i].row);
      assert TooLong(share, epoch, log[start + i]);
      return EntryTooLarge;
    }
    PageIsClean(rows, log, start, ignored);
    TilesCarryTheirRange(page, epoch, log, start, start + |rows|, ignored);
    return Deltas(page);
  }

  lemma PageIsClean(rows: seq<JournalRow>, log: seq<FileInfo>, start: nat, ignored: (string, bool) -> bool)
    requires IsPage(rows, log, start) && !HasIgnored(ignored, rows)
    ensures CleanRange(ignored, log, start, start + |rows|)
  {
    forall k | start <= k < start + |rows| ensures !IsIgnoredRow(ignored, log[k]) { assert log[k] == rows[k - start].row; }
  }

  /**
   The first `cut` frames tile `(applied, to]`, and what follows begins beyond a
   gap. If nothing after `to` has been pruned there is no gap, and the tiles
   reach at least `goal`.
   */
  ghost predicate Answered(frames: seq<Frame>, epoch: string, log: seq<FileInfo>, pruned: int, applied: nat, goal: nat, cut: nat, to: nat) {
    && applied <= to <= |log| && cut <= |frames|
    && Tiles(frames[..cut], epoch, log, applied, to) && AllFrom(frames[cut..], to + 2)
    && (pruned <= to ==> cut == |frames| && to >= goal)
  }

  lemma SentAnswers(frames: seq<Frame>, epoch: string, log: seq<FileInfo>, pruned: int, applied: nat, at: nat, goal: nat, cut: nat, to: nat)
    requires SentUpTo(frames, epoch, log, pruned, applied, at, cut, to) && at <= |log| && goal <= |log|
    requires at < |log| ==> pruned == |log|
    ensures Answered(frames, epoch, log, pruned, applied, goal, cut, to)
  {
  }

  /** Others may get a turn; what was sent stays sent. */
  method TakeTurn(store: Store, left: nat, ghost frames: seq<Frame>, ghost epoch: string, ghost applied: nat, ghost at: nat, ghost cut: nat, ghost to: nat)
    returns (left': nat)
    requires store.Valid() && SentUpTo(frames, epoch, store.log, store.Pruned(), applied, at, cut, to)
    modifies store
    ensures store.Valid() && old(store.log) <= store.log && store.Pruned() >= old(store.Pruned())
    ensures SentUpTo(frames, epoch, store.log, store.Pruned(), applied, at, cut, to)
    ensures if left > 0 then left' < left else left' == 0 && store.log == old(store.log)
  {
    left' := left;
    if left > 0 {
      left' := left - 1;
      ghost var log, pruned := store.log, store.Pruned();
      Meanwhile(store);
      SentStays(frames, epoch, log, store.log, pruned, store.Pruned(), applied, at, cut, to);
    }
  }

  function Larger(a: nat, b: int): (m: nat)
    ensures m >= a && m >= b && (m == a || m == b)
  {
    if a < b then b else a
  }

  /** Every frame fits and carries no ignored row, and no row still in the journal between `applied` and `at` is ignored. */
  ghost predicate Clean(frames: seq<Frame>, share: string, ignored: (string, bool) -> bool, log: seq<FileInfo>, pruned: int, applied: nat, at: nat) {
    AllFit(frames, share) && NoneIgnored(frames, ignored) && CleanRange(ignored, log, Larger(applied, pruned), at)
  }

  lemma CleanGrows(sent: seq<Frame>, page: seq<Frame>, share: string, ignored: (string, bool) -> bool, log: seq<FileInfo>,
                   pruned: int, applied: nat, at: nat, start: nat, end: nat)
    requires Clean(sent, share, ignored, log, pruned, applied, at) && at <= start && (start > at ==> start == pruned)
    requires AllFit(page, share) && NoneIgnored(page, ignored) && CleanRange(ignored, log, start, end)
    ensures Clean(sent + page, share, ignored, log, pruned, applied, end)
  {
  }

  lemma CleanStays(frames: seq<Frame>, share: string, ignored: (string, bool) -> bool, log: seq<FileInfo>, log': seq<FileInfo>,
                   pruned: int, pruned': int, applied: nat, at: nat)
    requires Clean(frames, share, ignored, log, pruned, applied, at) && log <= log' && pruned <= pruned' && at <= |log|
    ensures Clean(frames, share, ignored, log', pruned', applied, at)
  {
  }

  /** The frames sent so far and those of one more page. */
  method AddPage(share: string, epoch: string, rows: seq<JournalRow>, ignored: (string, bool) -> bool, sent: seq<Frame>,
                 ghost log: seq<FileInfo>, ghost pruned: int, ghost applied: nat, ghost at: nat, ghost cut: nat, ghost to: nat, ghost start: nat)
    returns (answer: Answer, ghost cut': nat, ghost to': nat)
    requires IsPage(rows, log, start) && applied <= at <= start && (start > at ==> start == pruned)
    requires SentUpTo(sent, epoch, log, pruned, applied, at, cut, to) && Clean(sent, share, ignored, log, pruned, applied, at)
    ensures answer.Deltas? ==> SentUpTo(answer.frames, epoch, log, pruned, applied, start + |rows|, cut', to')
    ensures answer.Deltas? ==> Clean(answer.frames, share, ignored, log, pruned, applied, start + |rows|)
    ensures answer.NeedsSnapshot? ==> IgnoredAfter(ignored, log, applied)
    ensures answer.EntryTooLarge? ==> TooLongAfter(share, epoch, log, applied)
  {
    cut', to' := cut, to;
    answer := AnswerPage(share, epoch, rows, ignored, log, start, applied);
    if answer.Deltas? {
      CleanGrows(sent, answer.frames, share, ignored, log, pruned, applied, at, start, start + |rows|);
      cut', to' := SentGrows(sent, answer.frames, epoch, log, pruned, applied, at, cut, to, start, start + |rows|);
      answer := Deltas(sent + answer.frames);
    }
  }

  /** Reads one page and sends it after what was sent before; the last page is the one that is not full. */
  method SendNextPage(store: Store, share: string, epoch: string, ghost applied: nat, at: nat, pageSize: nat,
                      ignored: (string, bool) -> bool, sent: seq<Frame>, ghost cut: nat, ghost to: nat)
    returns (answer: Answer, at': nat, more: bool, ghost cut': nat, ghost to': nat)
    requires store.Valid() && pageSize > 0 && applied <= at && SentUpTo(sent, epoch, store.log, store.Pruned(), applied, at, cut, to)
    requires Clean(sent, share, ignored, store.log, store.Pruned(), applied, at)
    ensures answer.Deltas? ==> SentUpTo(answer.frames, epoch, store.log, store.Pruned(), applied, at', cut', to')
    ensures answer.Deltas? ==> Clean(answer.frames, share, ignored, store.log, store.Pruned(), applied, at')
    ensures answer.Deltas? ==> at <= at' && (if more then at < at' else at' == |store.log| || store.Pruned() == |store.log|)
    ensures answer.NeedsSnapshot? ==> IgnoredAfter(ignored, store.log, applied)
    ensures answer.EntryTooLarge? ==> TooLongAfter(share, epoch, store.log, applied)
  {
    answer, at', more, cut', to' := Deltas(sent), at, false, cut, to;
    var rows;
    ghost var start;
    rows, start := NextPage(store, at, pageSize);
    if rows != [] {
      answer, cut', to' := AddPage(share, epoch, rows, ignored, sent, store.log, store.Pruned(), applied, at, cut, to, start);
      at', more := rows[|rows| - 1].seqno, |rows| == pageSize;
    }
  }

  /**
   Walks the journal page by page, while others write and prune between pages
   for as many turns as they get. The frames tile the journal after `applied`,
   at least as far as it went at the start, unless it was pruned past where the
   tiles end. Every frame fits and carries no ignored row, and an ignored row
   after `applied` that stays in the journal rules the deltas out. The answer
   gives up only over a row after `applied` that is ignored or breaks a limit of
   the wire.
   */
  method SendJournalDeltas(store: Store, share: string, epoch: string, applied: nat, pageSize: nat,
                           ignored: (string, bool) -> bool, turns: nat)
    returns (answer: Answer, ghost cut: nat, ghost to: nat)
    requires store.Valid() && applied <= |store.log| && pageSize > 0
    modifies store
    ensures store.Valid() && old(store.log) <= store.log && store.Pruned() >= old(store.Pruned())
    ensures answer.Deltas? ==> Answered(answer.frames, epoch, store.log, store.Pruned(), applied, |old(store.log)|, cut, to)
    ensures answer.Deltas? ==> AllFit(answer.frames, share) && NoneIgnored(answer.frames, ignored)
    ensures IgnoredAfter(ignored, old(store.log), Larger(applied, store.Pruned())) ==> !answer.Deltas?
    ensures answer.NeedsSnapshot? ==> IgnoredAfter(ignored, store.log, applied)
    ensures answer.EntryTooLarge? ==> TooLongAfter(share, epoch, store.log, applied)
  {
    var at, frames, left, more := applied, [], turns, true;
    cut, to, answer := 0, applied, Deltas([]);
    while more
      invariant store.Valid() && old(store.log) <= store.log && store.Pruned() >= old(store.Pruned()) && applied <= at
      invariant Clean(frames, share, ignored, store.log, store.Pruned(), applied, at)
      invariant answer == Deltas(frames) && SentUpTo(frames, epoch, store.log, store.Pruned(), applied, at, cut, to)
      invariant !more ==> at < |store.log| ==> store.Pruned() == |store.log|
      decreases left, |store.log| - at, if more then 1 else 0
    {
      ghost var log, pruned := store.log, store.Pruned();
      left := TakeTurn(store, left, frames, epoch, applied, at, cut, to);
      CleanStays(frames, share, ignored, log, store.log, pruned, store.Pruned(), applied, at);
      answer, at, more, cut, to := SendNextPage(store, share, epoch, applied, at, pageSize, ignored, frames, cut, to);
      if !answer.Deltas? { return; }
      frames := answer.frames;
    }
    SentAnswers(frames, epoch, store.log, store.Pruned(), applied, at, |old(store.log)|, cut, to);
  }
}

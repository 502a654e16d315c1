/**
 Causal soundness of version vectors, over every run of any number of nodes.

 The world holds one path. Each node keeps at most one row for it, and every
 row any node ever held stays in a history from which peers may be told,
 however late. A row's version may be merged without a new event when two
 nodes turn out to hold the same bytes, and still no two rows ever share a
 version but not their content. The one step that can break this is a restore
 over a row an ignore rule has parked; `Harmless` says exactly when it does not.
 */
module Causal {
  import opened Vectors
  import opened Reconcile

  /** One increment of a node's counter, and the row it produced. */
  datatype Event = Event(node: NodeId, count: nat, row: FileInfo)

  datatype World = World(held: map<NodeId, FileInfo>, history: set<FileInfo>, events: seq<Event>)

  const INITIAL := World(map[], {}, [])

  /** The path in question, and which paths pass validation. */
  datatype Setting = Setting(path: string, valid: string -> bool)

  datatype Step =
    | Edit(node: NodeId, found: FileInfo)                  // a scan or a restore found new content
    | RestoreParked(node: NodeId, found: FileInfo)         // a restore that cannot see its row, which is parked
    | Remove(node: NodeId)                                 // a scan found the file gone
    | Touch(node: NodeId, found: FileInfo)                 // a scan found new metadata, same bytes
    | Exchange(node: NodeId, remote: FileInfo, now: int)   // a reconcile pass against an advertised row

  function HeldBy(w: World, n: NodeId): Option<FileInfo> {
    if n in w.held then Some(w.held[n]) else None
  }

  function VersionOf(w: World, n: NodeId): Vector {
    if n in w.held then w.held[n].version else map[]
  }

  /** The counter of `n` in the row `n` holds. */
  function Own(w: World, n: NodeId): Counter {
    At(VersionOf(w, n), n)
  }

  function Content(r: FileInfo): (bool, seq<Byte>) {
    (r.deleted, r.sha256)
  }

  /** `n` now holds `row`, which bumped its counter or not. */
  function Hold(w: World, n: NodeId, row: FileInfo, bumped: bool): World {
    World(w.held[n := row], w.history + {row},
          if bumped then w.events + [Event(n, At(row.version, n), row)] else w.events)
  }

  function ActionOf(c: Setting, w: World, s: Step): Action
    requires s.Exchange?
  {
    ReconcileOne(c.path, HeldBy(w, s.node), Some(s.remote), s.node, MIRROR, s.now, c.valid)
  }

  ghost predicate Enabled(w: World, s: Step) {
    && Own(w, s.node) < MAX_COUNTER
    && match s
       case Edit(n, found) => true
       case RestoreParked(n, found) => n in w.held
       case Remove(n) => n in w.held && !w.held[n].deleted
       case Touch(n, found) => n in w.held && !w.held[n].deleted && found.sha256 == w.held[n].sha256
       case Exchange(n, remote, now) => remote in w.history
  }

  /** A restore bumps the row it can see; a row parked by an ignore rule is not visible to it. */
  function RestoredVersion(row: FileInfo, parked: bool, n: NodeId): Vector {
    Bump(if parked then map[] else row.version, n)
  }

  /** What a restore over a parked row stores. */
  function ParkedRestore(n: NodeId, found: FileInfo): FileInfo {
    found.(deleted := false, version := RestoredVersion(found, true, n))
  }

  function Next(c: Setting, w: World, s: Step): World
    requires Enabled(w, s)
  {
    match s
    case Edit(n, found) =>
      Hold(w, n, found.(deleted := false, version := Bump(VersionOf(w, n), n)), true)
    case RestoreParked(n, found) => Hold(w, n, ParkedRestore(n, found), true)
    case Remove(n) =>
      Hold(w, n, w.held[n].(deleted := true, version := Bump(w.held[n].version, n)), true)
    case Touch(n, found) =>
      Hold(w, n, found.(deleted := false, version := w.held[n].version), false)
    case Exchange(n, remote, now) =>
      var a := ActionOf(c, w, s);
      var row := RowAfter(HeldBy(w, n), a);
      if a.kind == NoAction || row.None? then w
      else Hold(w, n, row.value, n in w.held && Concurrent(w.held[n].version, remote.version) && a.kind != Pull)
  }

  /** A run: from the empty world, one enabled step after another. */
  ghost predicate IsRun(c: Setting, ws: seq<World>, steps: seq<Step>) {
    && |ws| == |steps| + 1
    && ws[0] == INITIAL
    && forall i :: 0 <= i < |steps| ==> StepAt(c, ws, steps, i)
  }

  ghost predicate StepAt(c: Setting, ws: seq<World>, steps: seq<Step>, i: nat)
    requires i < |steps| < |ws|
  {
    Enabled(ws[i], steps[i]) && ws[i + 1] == Next(c, ws[i], steps[i])
  }

  // --- What every step keeps ------------------------------------------------------------

  predicate Knows(v: Vector, e: Event) {
    At(v, e.node) >= e.count
  }

  /** `i` is the most recently created event that `v` includes. */
  ghost predicate LastKnown(events: seq<Event>, v: Vector, i: nat) {
    i < |events| && Knows(v, events[i]) && forall j :: i < j < |events| ==> !Knows(v, events[j])
  }

  /** No row includes an event of `n` that `n` itself has not reached. */
  ghost predicate CountersOwned(w: World) {
    forall r, n :: r in w.history ==> At(r.version, n) <= Own(w, n)
  }

  /** A row's content is that of the latest event its version includes. */
  ghost predicate ContentFromLastEvent(w: World) {
    forall r :: r in w.history ==>
      exists i: nat :: LastKnown(w.events, r.version, i) && Content(w.events[i].row) == Content(r)
  }

  ghost predicate Inv(w: World) {
    && (forall n :: n in w.held ==> w.held[n] in w.history)
    && CountersOwned(w)
    && ContentFromLastEvent(w)
  }

  lemma HoldKeepsCountersOwned(w: World, n: NodeId, row: FileInfo, bumped: bool)
    requires CountersOwned(w)
    requires At(row.version, n) >= Own(w, n)
    requires forall m :: m != n ==> At(row.version, m) <= Own(w, m)
    ensures CountersOwned(Hold(w, n, row, bumped))
  {
    var w' := Hold(w, n, row, bumped);
    forall r, m | r in w'.history ensures At(r.version, m) <= Own(w', m) {
      if m != n { assert Own(w', m) == Own(w, m); }
    }
  }

  /** Recording an event no older row includes keeps every older row's last event. */
  lemma BumpKeepsInv(w: World, n: NodeId, row: FileInfo)
    requires Inv(w)
    requires At(row.version, n) == Own(w, n) + 1
    requires forall m :: m != n ==> At(row.version, m) <= Own(w, m)
    ensures Inv(Hold(w, n, row, true))
  {
    var w' := Hold(w, n, row, true);
    HoldKeepsCountersOwned(w, n, row, true);
    var e := Event(n, At(row.version, n), row);
    assert w'.events[|w.events|] == e;
    forall r | r in w'.history
      ensures exists i: nat :: LastKnown(w'.events, r.version, i) && Content(w'.events[i].row) == Content(r)
    {
      if r == row {
        assert LastKnown(w'.events, row.version, |w.events|);
      } else {
        assert !Knows(r.version, e) by { assert At(r.version, n) <= Own(w, n); }
        var i: nat :| LastKnown(w.events, r.version, i) && Content(w.events[i].row) == Content(r);
        assert LastKnown(w'.events, r.version, i) && w'.events[i] == w.events[i];
      }
    }
  }

  /** So does holding a row whose version and content the events already account for. */
  lemma AdoptKeepsInv(w: World, n: NodeId, row: FileInfo, i: nat)
    requires Inv(w)
    requires At(row.version, n) >= Own(w, n)
    requires forall m :: m != n ==> At(row.version, m) <= Own(w, m)
    requires LastKnown(w.events, row.version, i) && Content(w.events[i].row) == Content(row)
    ensures Inv(Hold(w, n, row, false))
  {
    var w' := Hold(w, n, row, false);
    HoldKeepsCountersOwned(w, n, row, false);
    forall r | r in w'.history
      ensures exists j: nat :: LastKnown(w'.events, r.version, j) && Content(w'.events[j].row) == Content(r)
    {
      if r == row {
        assert LastKnown(w'.events, row.version, i);
      }
    }
  }

  /** A merge includes what either side includes, so its last event is the later of theirs. */
  lemma MergeLastKnown(events: seq<Event>, a: Vector, b: Vector, i: nat, j: nat)
    requires LastKnown(events, a, i) && LastKnown(events, b, j)
    ensures LastKnown(events, Merge(a, b), if i < j then j else i)
  {
    forall k | 0 <= k < |events|
      ensures Knows(Merge(a, b), events[k]) <==> Knows(a, events[k]) || Knows(b, events[k])
    {
      assert At(Merge(a, b), events[k].node) == Max(At(a, events[k].node), At(b, events[k].node));
    }
  }

  lemma ConcurrentOutcome(path: string, l: FileInfo, r: FileInfo, n: NodeId, now: int)
    ensures var a := ReconcileConcurrent(path, l, r, n, MIRROR, now);
            var row := RowAfter(Some(l), a);
            row.Some? && a.kind != NoAction
            && if a.kind == Pull
               then row.value.version == Merge(l.version, r.version) && Content(row.value) == Content(l) == Content(r)
               else row.value.version == Bump(Merge(l.version, r.version), n)
  {
  }

  /** The four ways a mirror-mode exchange can leave the row. */
  lemma ExchangeOutcome(c: Setting, local: Option<FileInfo>, r: FileInfo, n: NodeId, now: int)
    ensures var a := ReconcileOne(c.path, local, Some(r), n, MIRROR, now, c.valid);
            var row := RowAfter(local, a);
            || (a.kind == NoAction && row == local)
            || (row == Some(r) && (local.None? || Dominates(r.version, local.value.version)))
            || (&& local.Some? && row.Some? && Concurrent(local.value.version, r.version)
                && if a.kind == Pull
                   then && row.value.version == Merge(local.value.version, r.version)
                        && Content(row.value) == Content(local.value) == Content(r)
                   else row.value.version == Bump(Merge(local.value.version, r.version), n))
  {
    if local.Some? { ConcurrentOutcome(c.path, local.value, r, n, now); }
  }

  lemma MergeKeepsInv(w: World, n: NodeId, r: FileInfo, row: FileInfo)
    requires Inv(w) && n in w.held && r in w.history
    requires row.version == Merge(w.held[n].version, r.version)
    requires Content(row) == Content(w.held[n]) == Content(r)
    ensures Inv(Hold(w, n, row, false))
  {
    var l := w.held[n];
    assert l in w.history;
    var i: nat :| LastKnown(w.events, r.version, i) && Content(w.events[i].row) == Content(r);
    var j: nat :| LastKnown(w.events, l.version, j) && Content(w.events[j].row) == Content(l);
    MergeLastKnown(w.events, l.version, r.version, j, i);
    forall m ensures At(row.version, m) <= Own(w, m) {
      assert At(l.version, m) <= Own(w, m) && At(r.version, m) <= Own(w, m);
    }
    AdoptKeepsInv(w, n, row, if j < i then i else j);
  }

  lemma ResolveKeepsInv(w: World, n: NodeId, r: FileInfo, row: FileInfo)
    requires Inv(w) && n in w.held && r in w.history && Own(w, n) < MAX_COUNTER
    requires row.version == Bump(Merge(w.held[n].version, r.version), n)
    ensures Inv(Hold(w, n, row, true))
  {
    var l := w.held[n];
    var merged := Merge(l.version, r.version);
    assert l in w.history;
    forall m ensures At(merged, m) <= Own(w, m) {
      assert At(l.version, m) <= Own(w, m) && At(r.version, m) <= Own(w, m);
    }
    assert At(merged, n) == Own(w, n);
    BumpKeepsInv(w, n, row);
  }

  lemma ExchangeKeepsInv(c: Setting, w: World, s: Step)
    requires Inv(w) && Enabled(w, s) && s.Exchange?
    ensures Inv(Next(c, w, s))
  {
    var n, r := s.node, s.remote;
    var a := ActionOf(c, w, s);
    ExchangeOutcome(c, HeldBy(w, n), r, n, s.now);
    var row := RowAfter(HeldBy(w, n), a);
    if a.kind == NoAction || row.None? {
    } else if n !in w.held || Dominates(r.version, w.held[n].version) {
      var i: nat :| LastKnown(w.events, r.version, i) && Content(w.events[i].row) == Content(r);
      AdoptKeepsInv(w, n, r, i);
    } else if a.kind == Pull {
      MergeKeepsInv(w, n, r, row.value);
    } else {
      ResolveKeepsInv(w, n, r, row.value);
    }
  }

  /**
   Every row with a counter of the restoring node has it at 1 and the restored
   content: the version the restore starts from nothing is new, or stands for
   the same bytes. Every other kind of step is harmless.
   */
  ghost predicate Harmless(w: World, s: Step) {
    s.RestoreParked? ==>
      forall r :: r in w.history && At(r.version, s.node) > 0 ==>
        At(r.version, s.node) == 1 && Content(r) == (false, s.found.sha256)
  }

  lemma ParkedVersion(n: NodeId, found: FileInfo, m: NodeId)
    ensures At(ParkedRestore(n, found).version, m) == if m == n then 1 else 0
  {
  }

  lemma ParkedRestoreKeepsInv(w: World, n: NodeId, found: FileInfo)
    requires Inv(w) && n in w.held && Harmless(w, RestoreParked(n, found))
    ensures Inv(Hold(w, n, ParkedRestore(n, found), true))
  {
    var row := ParkedRestore(n, found);
    forall m ensures At(row.version, m) == if m == n then 1 else 0 { ParkedVersion(n, found, m); }
    assert w.held[n] in w.history;
    HoldKeepsCountersOwned(w, n, row, true);
    var w', last := Hold(w, n, row, true), |w.events|;
    assert w'.events[last] == Event(n, 1, row);
    forall r | r in w'.history
      ensures exists i: nat :: LastKnown(w'.events, r.version, i) && Content(w'.events[i].row) == Content(r)
    {
      if r == row || At(r.version, n) > 0 {
        assert LastKnown(w'.events, r.version, last);
      } else {
        var i: nat :| LastKnown(w.events, r.version, i) && Content(w.events[i].row) == Content(r);
        assert LastKnown(w'.events, r.version, i) && w'.events[i] == w.events[i];
      }
    }
  }

  lemma ParkedRestoreNeeds(w: World, n: NodeId, found: FileInfo)
    requires Inv(w) && n in w.held && Inv(Hold(w, n, ParkedRestore(n, found), true))
    ensures Harmless(w, RestoreParked(n, found))
  {
    var row := ParkedRestore(n, found);
    var w', last := Hold(w, n, row, true), |w.events|;
    ParkedVersion(n, found, n);
    assert w'.events[last] == Event(n, 1, row) && Own(w', n) == 1;
    forall r | r in w.history && At(r.version, n) > 0 ensures At(r.version, n) == 1 && Content(r) == (false, found.sha256) {
      assert r in w'.history && Knows(r.version, w'.events[last]);
      var i: nat :| LastKnown(w'.events, r.version, i) && Content(w'.events[i].row) == Content(r);
      assert i == last;
    }
  }

  lemma StepKeepsInv(c: Setting, w: World, s: Step)
    requires Inv(w) && Enabled(w, s) && Harmless(w, s)
    ensures Inv(Next(c, w, s))
  {
    match s
    case RestoreParked(n, found) => ParkedRestoreKeepsInv(w, n, found);
    case Edit(n, found) =>
      BumpKeepsInv(w, n, found.(deleted := false, version := Bump(VersionOf(w, n), n)));
    case Remove(n) =>
      BumpKeepsInv(w, n, w.held[n].(deleted := true, version := Bump(w.held[n].version, n)));
    case Touch(n, found) =>
      var l := w.held[n];
      assert l in w.history;
      var i: nat :| LastKnown(w.events, l.version, i) && Content(w.events[i].row) == Content(l);
      AdoptKeepsInv(w, n, found.(deleted := false, version := l.version), i);
    case Exchange(_, _, _) =>
      ExchangeKeepsInv(c, w, s);
  }

  /** The invariant survives a step if and only if the step is harmless. */
  lemma StepKeepsInvIff(c: Setting, w: World, s: Step)
    requires Inv(w) && Enabled(w, s)
    ensures Inv(Next(c, w, s)) <==> Harmless(w, s)
  {
    if Harmless(w, s) {
      StepKeepsInv(c, w, s);
    } else if Inv(Next(c, w, s)) {
      ParkedRestoreNeeds(w, s.node, s.found);
    }
  }

  /** Every step of the run up to `n` was harmless when it was taken. */
  ghost predicate HarmlessUpTo(ws: seq<World>, steps: seq<Step>, n: nat)
    requires n <= |steps| < |ws|
  {
    forall i :: 0 <= i < n ==> Harmless(ws[i], steps[i])
  }

  lemma {:induction false} RunKeepsInv(c: Setting, ws: seq<World>, steps: seq<Step>, i: nat)
    requires IsRun(c, ws, steps) && i < |ws| && HarmlessUpTo(ws, steps, i)
    ensures Inv(ws[i])
  {
    if i > 0 {
      assert StepAt(c, ws, steps, i - 1);
      RunKeepsInv(c, ws, steps, i - 1);
      StepKeepsInv(c, ws[i - 1], steps[i - 1]);
    }
  }

  // --- The results -------------------------------------------------------------------------

  /**
   In every run of harmless steps, at every moment, any two rows any nodes ever
   held that carry equal versions agree on whether the file is deleted and on its
   content.
   */
  lemma EqualVersionsMeanEqualContent(c: Setting, ws: seq<World>, steps: seq<Step>, i: nat, a: FileInfo, b: FileInfo)
    requires IsRun(c, ws, steps) && i < |ws| && HarmlessUpTo(ws, steps, i)
    requires a in ws[i].history && b in ws[i].history && Equal(a.version, b.version)
    ensures a.deleted == b.deleted && a.sha256 == b.sha256
  {
    RunKeepsInv(c, ws, steps, i);
    InvTellsContent(ws[i]);
  }

  /** Rows with equal versions agree on whether the file is deleted and on its content. */
  ghost predicate VersionsTellContent(w: World) {
    forall a, b :: a in w.history && b in w.history && Equal(a.version, b.version) ==> Content(a) == Content(b)
  }

  lemma InvTellsContent(w: World)
    requires Inv(w)
    ensures VersionsTellContent(w)
  {
    forall a, b | a in w.history && b in w.history && Equal(a.version, b.version) ensures Content(a) == Content(b) {
      var j: nat :| LastKnown(w.events, a.version, j) && Content(w.events[j].row) == Content(a);
      var k: nat :| LastKnown(w.events, b.version, k) && Content(w.events[k].row) == Content(b);
      assert Knows(b.version, w.events[j]) && Knows(a.version, w.events[k]);
    }
  }

  /** No step takes a node's version back, so none undoes a change it already knew of. */
  lemma StepNeverRegresses(c: Setting, w: World, s: Step, n: NodeId)
    requires Inv(w) && Enabled(w, s) && !(s.RestoreParked? && s.node == n)
    ensures Leq(VersionOf(w, n), VersionOf(Next(c, w, s), n))
  {
    if s.node == n && n in w.held {
      var l := w.held[n];
      if s.Exchange? {
        ExchangeOutcome(c, HeldBy(w, n), s.remote, n, s.now);
        assert l in w.history && At(s.remote.version, n) <= Own(w, n);
        MergeIsAbove(l.version, s.remote.version, n);
      } else {
        assert Leq(l.version, Bump(l.version, n));
      }
    }
  }

  lemma MergeIsAbove(a: Vector, b: Vector, n: NodeId)
    requires At(b, n) <= At(a, n) < MAX_COUNTER
    ensures Leq(a, Merge(a, b)) && Leq(a, Bump(Merge(a, b), n))
  {
    assert forall k :: At(a, k) <= At(Merge(a, b), k);
  }

  lemma LeqTransitive(a: Vector, b: Vector, c: Vector)
    requires Leq(a, b) && Leq(b, c)
    ensures Leq(a, c)
  {
    forall k ensures At(a, k) <= At(c, k) { assert At(a, k) <= At(b, k) <= At(c, k); }
  }

  lemma {:induction false} RunNeverRegresses(c: Setting, ws: seq<World>, steps: seq<Step>, i: nat, j: nat, n: NodeId)
    requires IsRun(c, ws, steps) && i <= j < |ws| && HarmlessUpTo(ws, steps, j)
    requires forall k :: i <= k < j ==> !(steps[k].RestoreParked? && steps[k].node == n)
    ensures Leq(VersionOf(ws[i], n), VersionOf(ws[j], n))
    decreases j
  {
    if i < j {
      assert StepAt(c, ws, steps, j - 1);
      RunNeverRegresses(c, ws, steps, i, j - 1, n);
      RunKeepsInv(c, ws, steps, j - 1);
      StepNeverRegresses(c, ws[j - 1], steps[j - 1], n);
      LeqTransitive(VersionOf(ws[i], n), VersionOf(ws[j - 1], n), VersionOf(ws[j], n));
    }
  }

  // --- Restoring over a parked row -----------------------------------------------------------

  /** A restore over a row with any counter produces a newer version if and only if the row is not parked. */
  lemma RestoreIsANewVersionIff(row: FileInfo, parked: bool, n: NodeId)
    requires At(row.version, n) < MAX_COUNTER && exists k :: At(row.version, k) > 0
    ensures Dominates(RestoredVersion(row, parked, n), row.version) <==> !parked
  {
    if parked {
      forall m ensures At(RestoredVersion(row, parked, n), m) == if m == n then 1 else 0 { ParkedVersion(n, row, m); }
      var k :| At(row.version, k) > 0;
    } else {
      BumpDominatesUnlessItWraps(row.version, n);
    }
  }

  /** Over a parked row it repeats the row's own version if and only if that is one count of this node. */
  lemma ParkedRestoreRepeatsIff(row: FileInfo, n: NodeId)
    ensures Equal(RestoredVersion(row, true, n), row.version)
       <==> At(row.version, n) == 1 && forall k :: k != n ==> At(row.version, k) == 0
  {
    forall m ensures At(RestoredVersion(row, true, n), m) == if m == n then 1 else 0 { ParkedVersion(n, row, m); }
  }

  /** The version is one count of `n` and nothing else, as a restore over a parked row gives. */
  ghost predicate IsOneCountOf(v: Vector, n: NodeId) {
    At(v, n) == 1 && forall k :: k != n ==> At(v, k) == 0
  }

  lemma ParkedRestoreIsOneCount(n: NodeId, found: FileInfo)
    ensures IsOneCountOf(ParkedRestore(n, found).version, n)
  {
    forall m ensures At(ParkedRestore(n, found).version, m) == if m == n then 1 else 0 { ParkedVersion(n, found, m); }
  }

  lemma EqualToOneCount(u: Vector, v: Vector, n: NodeId)
    requires IsOneCountOf(u, n)
    ensures Equal(v, u) <==> IsOneCountOf(v, n)
    ensures Equal(u, v) <==> IsOneCountOf(v, n)
  {
    if Equal(v, u) || Equal(u, v) {
      forall k | k != n ensures At(v, k) == 0 { assert At(u, k) == 0; }
    }
  }

  /** Every row so far whose version is one count of `n` has the content of `found`. */
  ghost predicate OneCountsHave(w: World, n: NodeId, found: FileInfo) {
    forall r :: r in w.history && IsOneCountOf(r.version, n) ==> Content(r) == (false, found.sha256)
  }

  /**
   After a restore over a parked row, equal versions still mean equal content if
   and only if every row so far whose version is one count of the restoring node
   has the restored content.
   */
  lemma ParkedRestoreKeepsPromiseIff(w: World, n: NodeId, found: FileInfo)
    requires Inv(w) && n in w.held
    ensures VersionsTellContent(Hold(w, n, ParkedRestore(n, found), true)) <==> OneCountsHave(w, n, found)
  {
    InvTellsContent(w);
    ParkedRestoreIsOneCount(n, found);
    AddedRowKeepsPromiseIff(w, Hold(w, n, ParkedRestore(n, found), true), ParkedRestore(n, found), n, found);
  }

  lemma AddedRowKeepsPromiseIff(w: World, w': World, row: FileInfo, n: NodeId, found: FileInfo)
    requires VersionsTellContent(w) && w'.history == w.history + {row}
    requires IsOneCountOf(row.version, n) && Content(row) == (false, found.sha256)
    ensures VersionsTellContent(w') <==> OneCountsHave(w, n, found)
  {
    forall r: FileInfo
      ensures Equal(r.version, row.version) <==> IsOneCountOf(r.version, n)
      ensures Equal(row.version, r.version) <==> IsOneCountOf(r.version, n)
    {
      EqualToOneCount(row.version, r.version, n);
    }
    if VersionsTellContent(w') {
      forall r | r in w.history && IsOneCountOf(r.version, n) ensures Content(r) == (false, found.sha256) {
        assert r in w'.history && row in w'.history && Equal(r.version, row.version);
      }
    }
  }

  /**
   What the restoring node can tell from its own parked row: without a count of
   its own the restore is harmless, and with two or more it is not.
   */
  lemma OwnRowTellsHarm(w: World, n: NodeId, found: FileInfo)
    requires Inv(w) && n in w.held
    ensures Own(w, n) == 0 ==> Harmless(w, RestoreParked(n, found))
    ensures Own(w, n) >= 2 ==> !Harmless(w, RestoreParked(n, found))
    ensures Own(w, n) == 1 && Harmless(w, RestoreParked(n, found)) ==> Content(w.held[n]) == (false, found.sha256)
  {
    assert w.held[n] in w.history;
    forall r | r in w.history ensures At(r.version, n) <= Own(w, n) {
    }
  }

  /**
   A run that ends with two rows of equal versions and different content: a node
   adds a file, an ignore rule parks it, and an older copy of the path is
   restored from the trash.
   */
  lemma ParkedRestoreReusesAVersion(c: Setting, n: NodeId, first: FileInfo, second: FileInfo)
    returns (ws: seq<World>, steps: seq<Step>, a: FileInfo, b: FileInfo)
    requires first.sha256 != second.sha256
    ensures IsRun(c, ws, steps)
    ensures var w := ws[|ws| - 1];
            a in w.history && b in w.history && Equal(a.version, b.version) && a.sha256 == first.sha256 && b.sha256 == second.sha256
  {
    var edit, restore := Edit(n, first), RestoreParked(n, second);
    var w1 := Next(c, INITIAL, edit);
    a, b := w1.held[n], ParkedRestore(n, second);
    ws, steps := [INITIAL, w1, Next(c, w1, restore)], [edit, restore];
    assert StepAt(c, ws, steps, 0) && StepAt(c, ws, steps, 1);
  }
}

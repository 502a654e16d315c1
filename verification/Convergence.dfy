/**
 Two nodes, `nodeA` and `nodeB`, that hold different rows for a path and tell each other.

 Taking turns always settles the path. Resolving at the same moment settles it
 after one more exchange, except for two concurrent tombstones, which leapfrog
 each other for as long as the nodes stay in step. When file contents conflict,
 both sides keep the same loser under the same name.
 */
module Convergence {
  import opened Vectors
  import opened ConflictNames
  import opened Order
  import opened Reconcile
  import opened Causal

  /** Equal versions and the same content: nothing left to exchange. */
  predicate Agree(a: FileInfo, b: FileInfo) {
    Equal(a.version, b.version) && Content(a) == Content(b)
  }

  /** What every reachable pair of rows satisfies (see Causal). */
  predicate SoundPair(a: FileInfo, b: FileInfo) {
    Equal(a.version, b.version) ==> Content(a) == Content(b)
  }

  predicate Advertisable(c: Setting, r: FileInfo) {
    r.relpath == c.path && c.valid(c.path) && r.ftype != Symlink
  }

  /** The counter of `n` can still be raised `k` times. */
  predicate Room(v: Vector, n: NodeId, k: nat) {
    At(v, n) + k <= MAX_COUNTER
  }

  function Resolution(c: Setting, n: NodeId, mine: FileInfo, theirs: FileInfo, now: int): Action {
    ReconcileOne(c.path, Some(mine), Some(theirs), n, MIRROR, now, c.valid)
  }

  /** The row `n` holds after reconciling its own row with the peer's. */
  function Turn(c: Setting, n: NodeId, mine: FileInfo, theirs: FileInfo, now: int): FileInfo {
    RowAfter(Some(mine), Resolution(c, n, mine, theirs, now)).value
  }

  lemma TurnCases(c: Setting, n: NodeId, l: FileInfo, r: FileInfo, now: int)
    requires Advertisable(c, l) && Advertisable(c, r)
    ensures var t := Turn(c, n, l, r, now);
            && Advertisable(c, t)
            && (Equal(l.version, r.version) ==> t == l)
            && (Dominates(r.version, l.version) ==> t == r)
            && (Dominates(l.version, r.version) ==> t == l)
            && (Concurrent(l.version, r.version) ==>
                  if !l.deleted && !r.deleted && l.sha256 == r.sha256
                  then t.version == Merge(l.version, r.version) && Content(t) == Content(l)
                  else && t.version == Bump(Merge(l.version, r.version), n)
                       && t.deleted == (l.deleted && r.deleted)
                       && (!t.deleted ==> t.sha256 == (if WinnerIsFirst(l, r) then l else r).sha256))
  {
    ExactlyOneRelation(l.version, r.version);
  }

  /** Which of two concurrent rows survives: a live one over a deleted one, else by mtime and digest. */
  predicate WinnerIsFirst(l: FileInfo, r: FileInfo) {
    if l.deleted != r.deleted then r.deleted else !ConflictWinnerIsRemote(l, r)
  }

  /** Both sides pick the same winner. */
  lemma SameWinner(l: FileInfo, r: FileInfo)
    requires !(l.deleted && r.deleted)
    requires !l.deleted && !r.deleted ==> l.sha256 != r.sha256
    ensures WinnerIsFirst(l, r) <==> !WinnerIsFirst(r, l)
  {
    LexTotal(l.sha256, r.sha256);
  }

  // --- Taking turns ------------------------------------------------------------------

  /** `nodeA` resolves first, then `nodeB` sees its result: the two agree, whatever they held. */
  lemma TakingTurnsConverges(c: Setting, nodeA: NodeId, nodeB: NodeId, l: FileInfo, r: FileInfo, nowA: int, nowB: int)
    requires Advertisable(c, l) && Advertisable(c, r) && SoundPair(l, r)
    requires Room(l.version, nodeA, 1) && Room(r.version, nodeA, 1)
    ensures var a := Turn(c, nodeA, l, r, nowA);
            Agree(a, Turn(c, nodeB, r, a, nowB))
  {
    var a := Turn(c, nodeA, l, r, nowA);
    TurnCases(c, nodeA, l, r, nowA);
    TurnCases(c, nodeB, r, a, nowB);
    ExactlyOneRelation(l.version, r.version);
    if Concurrent(l.version, r.version) {
      MergeBumpDominates(l.version, r.version, nodeA);
      ConcurrentMergeDominates(l.version, r.version);
    }
  }

  lemma ConcurrentMergeDominates(a: Vector, b: Vector)
    requires Concurrent(a, b)
    ensures Dominates(Merge(a, b), b)
  {
    ExactlyOneRelation(a, b);
    var k :| At(a, k) > At(b, k);
    assert At(Merge(a, b), k) > At(b, k);
  }

  /** Once they agree neither has anything to do. */
  lemma AgreementIsStable(c: Setting, n: NodeId, a: FileInfo, b: FileInfo, now: int)
    requires Agree(a, b)
    ensures Resolution(c, n, a, b, now).kind == NoAction && Turn(c, n, a, b, now) == a
  {
    ExactlyOneRelation(a.version, b.version);
  }

  // --- Resolving at the same moment -----------------------------------------------------

  /** Both sides bumping the same merge leaves each ahead on its own counter. */
  lemma MutualBumpsAreConcurrent(a: Vector, b: Vector, nodeA: NodeId, nodeB: NodeId)
    requires nodeA != nodeB && Room(a, nodeA, 1) && Room(b, nodeA, 1) && Room(a, nodeB, 1) && Room(b, nodeB, 1)
    ensures Concurrent(Bump(Merge(a, b), nodeA), Bump(Merge(b, a), nodeB))
  {
    var x, y := Bump(Merge(a, b), nodeA), Bump(Merge(b, a), nodeB);
    assert At(x, nodeA) > At(y, nodeA) && At(y, nodeB) > At(x, nodeB);
    ExactlyOneRelation(x, y);
  }

  lemma MergesAgree(a: Vector, b: Vector)
    ensures Equal(Merge(a, b), Merge(b, a))
  {
    forall k ensures At(Merge(a, b), k) == At(Merge(b, a), k) { MergeOrderIrrelevant(a, b, map[], k); }
  }

  predicate BothTombstones(l: FileInfo, r: FileInfo) {
    Concurrent(l.version, r.version) && l.deleted && r.deleted
  }

  lemma ConcurrentIsSymmetric(a: Vector, b: Vector)
    ensures Concurrent(a, b) <==> Concurrent(b, a)
  {
    ExactlyOneRelation(a, b);
    ExactlyOneRelation(b, a);
  }

  /** One simultaneous exchange: agreement, or the same content under concurrent versions. */
  lemma FirstExchange(c: Setting, nodeA: NodeId, nodeB: NodeId, l: FileInfo, r: FileInfo, nowA: int, nowB: int)
    requires nodeA != nodeB && Advertisable(c, l) && Advertisable(c, r) && SoundPair(l, r)
    requires Room(l.version, nodeA, 1) && Room(r.version, nodeA, 1) && Room(l.version, nodeB, 1) && Room(r.version, nodeB, 1)
    ensures var a, b := Turn(c, nodeA, l, r, nowA), Turn(c, nodeB, r, l, nowB);
            && Advertisable(c, a) && Advertisable(c, b)
            && (BothTombstones(l, r) ==> BothTombstones(a, b))
            && (!BothTombstones(l, r) ==>
                  || Agree(a, b)
                  || (Concurrent(a.version, b.version) && !a.deleted && !b.deleted && a.sha256 == b.sha256))
  {
    TurnCases(c, nodeA, l, r, nowA);
    TurnCases(c, nodeB, r, l, nowB);
    ExactlyOneRelation(l.version, r.version);
    ConcurrentIsSymmetric(l.version, r.version);
    if Concurrent(l.version, r.version) {
      MutualBumpsAreConcurrent(l.version, r.version, nodeA, nodeB);
      MergesAgree(l.version, r.version);
      if !(l.deleted && r.deleted) && !(!l.deleted && !r.deleted && l.sha256 == r.sha256) {
        SameWinner(l, r);
      }
    }
  }

  /**
   Two simultaneous exchanges bring the nodes to agreement exactly when the rows
   they started from were not two concurrent tombstones.
   */
  lemma SimultaneousExchangesConvergeIff(c: Setting, nodeA: NodeId, nodeB: NodeId, l: FileInfo, r: FileInfo,
                                         now1: int, now2: int, now3: int, now4: int)
    requires nodeA != nodeB && Advertisable(c, l) && Advertisable(c, r) && SoundPair(l, r)
    requires Room(l.version, nodeA, 2) && Room(r.version, nodeA, 2) && Room(l.version, nodeB, 2) && Room(r.version, nodeB, 2)
    ensures var a, b := Turn(c, nodeA, l, r, now1), Turn(c, nodeB, r, l, now2);
            Agree(Turn(c, nodeA, a, b, now3), Turn(c, nodeB, b, a, now4)) <==> !BothTombstones(l, r)
  {
    var a, b := Turn(c, nodeA, l, r, now1), Turn(c, nodeB, r, l, now2);
    FirstExchange(c, nodeA, nodeB, l, r, now1, now2);
    if Agree(a, b) {
      AgreementIsStable(c, nodeA, a, b, now3);
      AgreementIsStable(c, nodeB, b, a, now4);
    } else {
      TurnRoom(c, nodeA, nodeB, l, r, now1, 1);
      TurnRoom(c, nodeB, nodeA, r, l, now2, 1);
      FirstExchange(c, nodeA, nodeB, a, b, now3, now4);
      TurnCases(c, nodeA, a, b, now3);
      TurnCases(c, nodeB, b, a, now4);
      ConcurrentIsSymmetric(a.version, b.version);
      MergesAgree(a.version, b.version);
    }
  }

  /** A turn raises a node's counter by at most one over what either row had. */
  lemma TurnRoom(c: Setting, n: NodeId, m: NodeId, l: FileInfo, r: FileInfo, now: int, k: nat)
    requires Advertisable(c, l) && Advertisable(c, r)
    requires Room(l.version, n, k + 1) && Room(r.version, n, k + 1) && Room(l.version, m, k + 1) && Room(r.version, m, k + 1)
    ensures var t := Turn(c, n, l, r, now).version;
            Room(t, n, k) && Room(t, m, k)
  {
    TurnCases(c, n, l, r, now);
    ExactlyOneRelation(l.version, r.version);
  }

  /** A series of simultaneous exchanges: each pair of rows is what both sides made of the one before. */
  ghost predicate InStep(c: Setting, nodeA: NodeId, nodeB: NodeId, rows: seq<(FileInfo, FileInfo)>, now: int) {
    forall i :: 0 <= i < |rows| - 1 ==> InStepAt(c, nodeA, nodeB, rows, now, i)
  }

  ghost predicate InStepAt(c: Setting, nodeA: NodeId, nodeB: NodeId, rows: seq<(FileInfo, FileInfo)>, now: int, i: nat)
    requires i + 1 < |rows|
  {
    rows[i + 1] == (Turn(c, nodeA, rows[i].0, rows[i].1, now), Turn(c, nodeB, rows[i].1, rows[i].0, now))
  }

  predicate RoomForBoth(p: (FileInfo, FileInfo), nodeA: NodeId, nodeB: NodeId, k: nat) {
    Room(p.0.version, nodeA, k) && Room(p.1.version, nodeA, k) && Room(p.0.version, nodeB, k) && Room(p.1.version, nodeB, k)
  }

  ghost predicate Leapfrogging(c: Setting, nodeA: NodeId, nodeB: NodeId, p: (FileInfo, FileInfo), k: nat) {
    BothTombstones(p.0, p.1) && Advertisable(c, p.0) && Advertisable(c, p.1) && RoomForBoth(p, nodeA, nodeB, k)
  }

  lemma TombstonesLeapfrog(c: Setting, nodeA: NodeId, nodeB: NodeId, l: FileInfo, r: FileInfo, now: int, k: nat)
    requires nodeA != nodeB && Leapfrogging(c, nodeA, nodeB, (l, r), k + 1)
    ensures Leapfrogging(c, nodeA, nodeB, (Turn(c, nodeA, l, r, now), Turn(c, nodeB, r, l, now)), k)
  {
    FirstExchange(c, nodeA, nodeB, l, r, now, now);
    TurnRoom(c, nodeA, nodeB, l, r, now, k);
    TurnRoom(c, nodeB, nodeA, r, l, now, k);
  }

  /** Two concurrent tombstones stay concurrent through any number of exchanges in step. */
  lemma {:induction false} TombstonesLeapfrogForever(c: Setting, nodeA: NodeId, nodeB: NodeId, rows: seq<(FileInfo, FileInfo)>, now: int, i: nat)
    requires nodeA != nodeB && InStep(c, nodeA, nodeB, rows, now) && i < |rows|
    requires Leapfrogging(c, nodeA, nodeB, rows[0], |rows|)
    ensures Leapfrogging(c, nodeA, nodeB, rows[i], |rows| - i) && !Agree(rows[i].0, rows[i].1)
  {
    if i > 0 {
      assert InStepAt(c, nodeA, nodeB, rows, now, i - 1);
      TombstonesLeapfrogForever(c, nodeA, nodeB, rows, now, i - 1);
      TombstonesLeapfrog(c, nodeA, nodeB, rows[i - 1].0, rows[i - 1].1, now, |rows| - i);
    }
  }

  // --- Conflict copies --------------------------------------------------------------------

  /** The identifier can be read back from a conflict name at a fixed offset. */
  lemma NameCarriesId(relpath: string, id: string, ns: int)
    ensures var p := ConflictRelPath(relpath, id, ns);
            var i := BaseStart(relpath);
            var o := i + ExtStart(Strip(relpath[i..])) + 31;
            o + |id| <= |p| && p[o..o + |id|] == id
  {
    var i := BaseStart(relpath);
    var b, m := Strip(relpath[i..]), Marker(id, ns);
    MarkerEndsWithId(id, ns);
    TailOfInner(relpath[..i], b[..ExtStart(b)], m, b[ExtStart(b)..]);
  }

  lemma TailOfInner(d: string, x: string, m: string, e: string)
    requires |m| >= 31
    ensures (d + (x + m + e))[|d| + |x| + 31..|d| + |x| + |m|] == m[31..]
  {
  }

  /**
   Two nodes resolving the same content conflict keep the same winner, and they
   name the loser alike exactly when its derived name is not the path itself.
   */
  lemma BothKeepTheSameLoser(c: Setting, nodeA: NodeId, nodeB: NodeId, l: FileInfo, r: FileInfo, nowA: int, nowB: int)
    requires Advertisable(c, l) && Advertisable(c, r)
    requires Concurrent(l.version, r.version) && !l.deleted && !r.deleted && l.sha256 != r.sha256
    requires |l.sha256| >= CONFLICT_ID_LEN && |r.sha256| >= CONFLICT_ID_LEN
    requires nodeA != nodeB && |nodeA| == |nodeB|
    ensures var a, b := Resolution(c, nodeA, l, r, nowA), Resolution(c, nodeB, r, l, nowB);
            var loser := if ConflictWinnerIsRemote(l, r) then l else r;
            && a.kind == ConflictCopy && b.kind == ConflictCopy
            && Content(a.resolved) == Content(b.resolved)
            && a.conflictInfo.(relpath := c.path) == b.conflictInfo.(relpath := c.path) == loser
            && (a.conflictRelPath == b.conflictRelPath <==> DerivedName(c.path, loser) != c.path)
            && (DerivedName(c.path, loser) != c.path ==> a.conflictInfo == b.conflictInfo)
  {
    ExactlyOneRelation(l.version, r.version);
    ConcurrentIsSymmetric(l.version, r.version);
    LexTotal(l.sha256, r.sha256);
    NameCarriesId(c.path, nodeA, nowA);
    NameCarriesId(c.path, nodeB, nowB);
  }

  /** With a digest of four bytes or more and a 16-character node id, the copy never lands on the winner's path. */
  lemma CopyNeverTakesTheWinnersPath(relpath: string, loser: FileInfo, node: NodeId, now: int)
    requires |loser.sha256| >= CONFLICT_ID_LEN && |node| == 16
    ensures LoserConflictRelPath(relpath, loser, node, now) != relpath
  {
    assert |Hex(loser.sha256[..CONFLICT_ID_LEN])| == 8;
    assert |DerivedName(relpath, loser)| != |ConflictRelPath(relpath, node, now)|;
  }
}

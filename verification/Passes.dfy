/**
 A whole pass: every path either side lists is decided on its own. What the pass
 promises for a path is said of the action and the two rows alone.
 */
module Passes {
  import opened Vectors
  import opened ConflictNames
  import opened Order
  import opened Reconcile
  import opened Directions

  // --- What a decision for one path must be -----------------------------------------------

  ghost predicate LeavesAlone(a: Action, local: Option<FileInfo>) {
    a.kind == NoAction && a.source == NoSource && a.conflictSource == NoSource && RowAfter(local, a) == local
  }

  /** The peer's row cannot be acted on at all. */
  predicate Malformed(remote: Option<FileInfo>, valid: string -> bool) {
    remote.Some? && (!valid(remote.value.relpath) || remote.value.ftype == Symlink)
  }

  /** Whether the path is a directory, as this node sees it, or else as the peer does. */
  predicate IsDirEntry(l: Option<FileInfo>, r: Option<FileInfo>) {
    if l.Some? then l.value.ftype == Dir else r.Some? && r.value.ftype == Dir
  }

  /** The peer's row replaces this node's. */
  ghost predicate Adopts(a: Action, local: Option<FileInfo>, r: FileInfo) {
    && RowAfter(local, a) == Some(r)
    && (if r.deleted then a.kind == Delete && a.source == NoSource else a.kind == Pull && a.source == Remote)
  }

  /** This node's row stays, and a receive-only node reports it. */
  ghost predicate KeepsOwn(a: Action, local: Option<FileInfo>, dir: Direction) {
    && RowAfter(local, a) == local && a.source == NoSource
    && a.kind == (if dir.outboundBlocked then LocallyModified else NoAction)
  }

  /** Every counter is the larger one, but one more for the resolving node, below the top of its range. */
  ghost predicate IsBumpedMerge(v: Vector, a: Vector, b: Vector, n: NodeId) {
    && (forall k :: k != n ==> At(v, k) == Max(At(a, k), At(b, k)))
    && (Max(At(a, n), At(b, n)) < MAX_COUNTER ==> At(v, n) == Max(At(a, n), At(b, n)) + 1)
  }

  /** The row is `side`'s, at this path and with the version `v`. */
  predicate IsRowOf(row: FileInfo, side: FileInfo, relpath: string, v: Vector) {
    row == side.(relpath := relpath, version := v)
  }

  /** The winner stays at the path and the loser goes beside it, under the name of its own version. */
  ghost predicate KeepsBoth(a: Action, row: FileInfo, winner: FileInfo, loser: FileInfo, node: NodeId, now: int) {
    && a.kind == ConflictCopy && IsRowOf(row, winner, a.relpath, row.version)
    && a.conflictRelPath == LoserConflictRelPath(a.relpath, loser, node, now)
    && a.conflictInfo == loser.(relpath := a.conflictRelPath)
  }

  /** Versions neither of which is above the other. */
  ghost predicate Resolves(a: Action, l: FileInfo, r: FileInfo, node: NodeId, dir: Direction, now: int) {
    if dir.outboundBlocked && !l.deleted then
      a.kind == LocallyModified && a.source == Remote && RowAfter(Some(l), a) == Some(r)
    else
      RowAfter(Some(l), a).Some? &&
      var row := RowAfter(Some(l), a).value;
      if !l.deleted && !r.deleted && l.sha256 == r.sha256 then
        && a.kind == Pull && a.source == NoSource && IsRowOf(row, l, a.relpath, row.version)
        && forall k :: At(row.version, k) == Max(At(l.version, k), At(r.version, k))
      else
        && IsBumpedMerge(row.version, l.version, r.version, node)
        && if l.deleted && r.deleted then
             a.kind == Delete && a.source == NoSource && IsRowOf(row, r, a.relpath, row.version)
           else if l.deleted || r.deleted then
             && a.kind == Resurrect
             && (if l.deleted then a.source == Remote && IsRowOf(row, r, a.relpath, row.version)
                 else a.source == Local && IsRowOf(row, l, a.relpath, row.version))
           else if r.mtimeNS > l.mtimeNS || (r.mtimeNS == l.mtimeNS && LexLess(l.sha256, r.sha256)) then
             a.source == Remote && a.conflictSource == Local && KeepsBoth(a, row, r, l, node, now)
           else
             a.source == Local && a.conflictSource == Remote && KeepsBoth(a, row, l, r, node, now)
  }

  /** What a path that is acted on comes to, by how the two versions relate. */
  ghost predicate Acts(a: Action, local: Option<FileInfo>, remote: Option<FileInfo>, node: NodeId, dir: Direction, now: int) {
    if remote.None? then KeepsOwn(a, local, dir)
    else
      var r := remote.value;
      && TakesFrom(a, local, r)
      && if local.None? then Adopts(a, local, r)
         else
           var l := local.value;
           if Leq(l.version, r.version) && Leq(r.version, l.version) then LeavesAlone(a, local)
           else if Leq(l.version, r.version) then Adopts(a, local, r)
           else if Leq(r.version, l.version) then KeepsOwn(a, local, dir)
           else Resolves(a, l, r, node, dir, now)
  }

  /**
   A path is left as it is if the peer's row is malformed, the path is ignored or
   the share is offered read-only, and is acted on otherwise.
   */
  ghost predicate Decided(a: Action, local: Option<FileInfo>, remote: Option<FileInfo>, node: NodeId, dir: Direction, now: int,
                          valid: string -> bool, ignored: (string, bool) -> bool) {
    if Malformed(remote, valid) || ignored(a.relpath, IsDirEntry(local, remote)) || dir.inboundBlocked
    then LeavesAlone(a, local)
    else Acts(a, local, remote, node, dir, now)
  }

  lemma ConcurrentResolves(p: string, l: FileInfo, r: FileInfo, node: NodeId, dir: Direction, now: int)
    ensures Resolves(ReconcileConcurrent(p, l, r, node, dir, now), l, r, node, dir, now)
    ensures ReconcileConcurrent(p, l, r, node, dir, now).relpath == p
  {
    if !l.deleted && !r.deleted && !dir.outboundBlocked {
      if l.sha256 == r.sha256 { SameContentResolves(p, l, r, node, dir, now); } else { TwoContentsResolve(p, l, r, node, dir, now); }
    } else {
      OneGoneResolves(p, l, r, node, dir, now);
    }
  }

  lemma SameContentResolves(p: string, l: FileInfo, r: FileInfo, node: NodeId, dir: Direction, now: int)
    requires !l.deleted && !r.deleted && !dir.outboundBlocked && l.sha256 == r.sha256
    ensures Resolves(ReconcileConcurrent(p, l, r, node, dir, now), l, r, node, dir, now)
  {
  }

  lemma TwoContentsResolve(p: string, l: FileInfo, r: FileInfo, node: NodeId, dir: Direction, now: int)
    requires !l.deleted && !r.deleted && !dir.outboundBlocked && l.sha256 != r.sha256
    ensures Resolves(ReconcileConcurrent(p, l, r, node, dir, now), l, r, node, dir, now)
  {
    var a := ReconcileConcurrent(p, l, r, node, dir, now);
    if ConflictWinnerIsRemote(l, r) {
      assert KeepsBoth(a, RowAfter(Some(l), a).value, r, l, node, now);
    } else {
      assert KeepsBoth(a, RowAfter(Some(l), a).value, l, r, node, now);
    }
  }

  lemma OneGoneResolves(p: string, l: FileInfo, r: FileInfo, node: NodeId, dir: Direction, now: int)
    requires l.deleted || r.deleted || dir.outboundBlocked
    ensures Resolves(ReconcileConcurrent(p, l, r, node, dir, now), l, r, node, dir, now)
  {
  }

  lemma OneActs(p: string, l: Option<FileInfo>, r: Option<FileInfo>, node: NodeId, dir: Direction, now: int, valid: string -> bool)
    requires !Malformed(r, valid) && !dir.inboundBlocked
    ensures Acts(ReconcileOne(p, l, r, node, dir, now, valid), l, r, node, dir, now)
  {
    if r.Some? { PullsAskForTheAdvertisedVersion(p, l, r.value, node, dir, now, valid); }
    if l.Some? && r.Some? {
      ExactlyOneRelation(l.value.version, r.value.version);
      ConcurrentResolves(p, l.value, r.value, node, dir, now);
      EqualIsSymmetric(l.value.version, r.value.version);
    }
  }

  lemma EqualIsSymmetric(a: Vector, b: Vector)
    ensures Equal(a, b) <==> Leq(a, b) && Leq(b, a)
    ensures Dominates(a, b) <==> Leq(b, a) && !Leq(a, b)
    ensures Dominates(b, a) <==> Leq(a, b) && !Leq(b, a)
  {
    ExactlyOneRelation(a, b);
    ExactlyOneRelation(b, a);
  }

  // --- A whole pass -------------------------------------------------------------------

  /** `row` is the last row for `p`. */
  ghost predicate IsLast(files: seq<FileInfo>, p: string, row: FileInfo) {
    exists i :: LastAt(files, p, i) && files[i] == row
  }

  predicate LastAt(files: seq<FileInfo>, p: string, i: int) {
    0 <= i < |files| && files[i].relpath == p && forall j :: i < j < |files| ==> files[j].relpath != p
  }

  /** The row for `p` in a listing; a later row for the same path hides an earlier one. */
  function Lookup(files: seq<FileInfo>, p: string): (r: Option<FileInfo>)
    ensures r.Some? ==> IsLast(files, p, r.value)
    ensures r.None? ==> forall f :: f in files ==> f.relpath != p
  {
    if files == [] then None
    else
      var n := |files| - 1;
      if files[n].relpath == p then assert LastAt(files, p, n); Some(files[n])
      else
        assert forall i :: LastAt(files[..n], p, i) ==> LastAt(files, p, i);
        Lookup(files[..n], p)
  }

  /** The action for one path of a pass, ignore rules included. */
  function DecideRows(p: string, l: Option<FileInfo>, r: Option<FileInfo>, node: NodeId, dir: Direction, now: int,
                      valid: string -> bool, ignored: (string, bool) -> bool): (a: Action)
    ensures a.relpath == p
  {
    if !Malformed(r, valid) && ignored(p, IsDirEntry(l, r)) then Plain(NoAction, p)
    else ReconcileOne(p, l, r, node, dir, now, valid)
  }

  function DecidePath(p: string, local: seq<FileInfo>, remote: seq<FileInfo>, node: NodeId, dir: Direction, now: int,
                      valid: string -> bool, ignored: (string, bool) -> bool): (a: Action)
    ensures a.relpath == p
  {
    DecideRows(p, Lookup(local, p), Lookup(remote, p), node, dir, now, valid, ignored)
  }

  lemma DecidePathIsRight(p: string, local: seq<FileInfo>, remote: seq<FileInfo>, node: NodeId, dir: Direction, now: int,
                          valid: string -> bool, ignored: (string, bool) -> bool)
    ensures Decided(DecidePath(p, local, remote, node, dir, now, valid, ignored), Lookup(local, p), Lookup(remote, p),
                    node, dir, now, valid, ignored)
  {
    var l, r := Lookup(local, p), Lookup(remote, p);
    if !Malformed(r, valid) && !dir.inboundBlocked { OneActs(p, l, r, node, dir, now, valid); }
  }

  lemma OneEach(actions: seq<Action>, paths: seq<string>, local: seq<FileInfo>, remote: seq<FileInfo>)
    requires |actions| == |paths| && forall i :: 0 <= i < |paths| ==> actions[i].relpath == paths[i]
    requires forall p :: p in paths <==> Lists(local, p) || Lists(remote, p)
    ensures forall p :: Lists(local, p) || Lists(remote, p) ==> exists i :: 0 <= i < |actions| && actions[i].relpath == p
    ensures forall i :: 0 <= i < |actions| ==> Lists(local, actions[i].relpath) || Lists(remote, actions[i].relpath)
  {
    forall p | Lists(local, p) || Lists(remote, p) ensures exists i :: 0 <= i < |actions| && actions[i].relpath == p {
      assert p in paths;
      var i :| 0 <= i < |paths| && paths[i] == p;
      assert actions[i].relpath == p;
    }
    forall i | 0 <= i < |actions| ensures Lists(local, actions[i].relpath) || Lists(remote, actions[i].relpath) {
      assert paths[i] in paths;
    }
  }

  lemma AllDecided(actions: seq<Action>, local: seq<FileInfo>, remote: seq<FileInfo>, node: NodeId, dir: Direction, now: int,
                   valid: string -> bool, ignored: (string, bool) -> bool)
    requires forall i :: 0 <= i < |actions| ==>
      actions[i] == DecidePath(actions[i].relpath, local, remote, node, dir, now, valid, ignored)
    ensures forall i :: 0 <= i < |actions| ==>
      Decided(actions[i], Lookup(local, actions[i].relpath), Lookup(remote, actions[i].relpath), node, dir, now, valid, ignored)
  {
    forall i | 0 <= i < |actions|
      ensures Decided(actions[i], Lookup(local, actions[i].relpath), Lookup(remote, actions[i].relpath), node, dir, now, valid, ignored)
    {
      DecidePathIsRight(actions[i].relpath, local, remote, node, dir, now, valid, ignored);
    }
  }

  method IndexByPath(files: seq<FileInfo>) returns (m: map<string, FileInfo>)
    ensures Indexes(m, files)
  {
    m := map[];
    var i := 0;
    while i < |files|
      invariant 0 <= i <= |files|
      invariant Indexes(m, files[..i])
    {
      m := m[files[i].relpath := files[i]];
      assert files[..i + 1][..i] == files[..i];
      i := i + 1;
    }
    assert files[..i] == files;
  }

  ghost predicate Indexes(m: map<string, FileInfo>, files: seq<FileInfo>) {
    forall p :: Lookup(files, p) == if p in m then Some(m[p]) else None
  }

  method DecideAll(paths: seq<string>, localByPath: map<string, FileInfo>, remoteByPath: map<string, FileInfo>,
                   ghost local: seq<FileInfo>, ghost remote: seq<FileInfo>, node: NodeId, dir: Direction, now: int,
                   valid: string -> bool, ignored: (string, bool) -> bool) returns (actions: seq<Action>)
    requires Indexes(localByPath, local) && Indexes(remoteByPath, remote)
    ensures |actions| == |paths|
    ensures forall j :: 0 <= j < |paths| ==>
      actions[j] == DecidePath(paths[j], local, remote, node, dir, now, valid, ignored)
  {
    actions := [];
    for i := 0 to |paths|
      invariant |actions| == i
      invariant forall j :: 0 <= j < i ==>
        actions[j] == DecidePath(paths[j], local, remote, node, dir, now, valid, ignored)
    {
      var p := paths[i];
      var l := if p in localByPath then Some(localByPath[p]) else None;
      var r := if p in remoteByPath then Some(remoteByPath[p]) else None;
      assert l == Lookup(local, p) && r == Lookup(remote, p);
      actions := actions + [DecideRows(p, l, r, node, dir, now, valid, ignored)];
    }
  }

  predicate Lists(files: seq<FileInfo>, p: string) {
    Lookup(files, p).Some?
  }

  /**
   One action for every path either side lists and for no other, in ascending
   path order, each as it must be for the last rows of its path.
   */
  method ReconcileAll(local: seq<FileInfo>, remote: seq<FileInfo>, node: NodeId, dir: Direction, now: int,
                      valid: string -> bool, ignored: (string, bool) -> bool) returns (actions: seq<Action>)
    ensures forall p :: Lists(local, p) || Lists(remote, p) ==> exists i :: 0 <= i < |actions| && actions[i].relpath == p
    ensures forall i :: 0 <= i < |actions| ==> Lists(local, actions[i].relpath) || Lists(remote, actions[i].relpath)
    ensures forall i, j :: 0 <= i < j < |actions| ==> Before(actions[i].relpath, actions[j].relpath)
    ensures forall i :: 0 <= i < |actions| ==>
      actions[i] == DecidePath(actions[i].relpath, local, remote, node, dir, now, valid, ignored)
    ensures forall i :: 0 <= i < |actions| ==>
      Decided(actions[i], Lookup(local, actions[i].relpath), Lookup(remote, actions[i].relpath), node, dir, now, valid, ignored)
  {
    var localByPath := IndexByPath(local);
    var remoteByPath := IndexByPath(remote);
    var paths := Sort(localByPath.Keys + remoteByPath.Keys);
    actions := DecideAll(paths, localByPath, remoteByPath, local, remote, node, dir, now, valid, ignored);
    OneEach(actions, paths, local, remote);
    AllDecided(actions, local, remote, node, dir, now, valid, ignored);
  }
}

/**
 What a decision promises in every direction of a share, mirror or not: what it
 asks the peer for, what it keeps, and what a one-way share may change.
 */
module Directions {
  import opened Vectors
  import opened Reconcile

  /** The remote row is one a pass may act on. */
  predicate Usable(remote: Option<FileInfo>, dir: Direction, valid: string -> bool) {
    remote.Some? && valid(remote.value.relpath) && remote.value.ftype != Symlink && !dir.inboundBlocked
  }

  /** What the action takes from the peer is the row `r` as advertised; what it keeps or preserves is the local row. */
  predicate TakesFrom(a: Action, local: Option<FileInfo>, r: FileInfo) {
    && (a.source == Remote ==> a.sourceVersion == r.version && a.resolved.sha256 == r.sha256 && a.resolved.size == r.size)
    && (a.source == Local ==> local.Some? && a.resolved.sha256 == local.value.sha256)
    && (a.conflictSource == Remote ==> a.source == Local && a.conflictInfo.version == r.version && a.conflictInfo.sha256 == r.sha256)
    && (a.conflictSource == Local ==> a.source == Remote && local.Some? && a.conflictInfo.sha256 == local.value.sha256)
    && (a.kind == ConflictCopy <==> a.conflictSource != NoSource)
  }

  lemma ConcurrentTakesFrom(relpath: string, l: FileInfo, r: FileInfo, node: NodeId, dir: Direction, now: int)
    ensures TakesFrom(ReconcileConcurrent(relpath, l, r, node, dir, now), Some(l), r)
  {
  }

  lemma SequentialTakesFrom(relpath: string, local: Option<FileInfo>, r: FileInfo,
                            node: NodeId, dir: Direction, now: int, valid: string -> bool)
    requires local.None? || !Concurrent(local.value.version, r.version)
    ensures TakesFrom(ReconcileOne(relpath, local, Some(r), node, dir, now, valid), local, r)
  {
    if local.Some? { ExactlyOneRelation(local.value.version, r.version); }
  }

  /** Content comes from the side an action names, and a pull asks for exactly the version the peer advertised. */
  lemma PullsAskForTheAdvertisedVersion(relpath: string, local: Option<FileInfo>, r: FileInfo,
                                        node: NodeId, dir: Direction, now: int, valid: string -> bool)
    ensures TakesFrom(ReconcileOne(relpath, local, Some(r), node, dir, now, valid), local, r)
  {
    if local.None? || !Concurrent(local.value.version, r.version) {
      SequentialTakesFrom(relpath, local, r, node, dir, now, valid);
    } else {
      ConcurrentTakesFrom(relpath, local.value, r, node, dir, now);
      ExactlyOneRelation(local.value.version, r.version);
      var a := ReconcileOne(relpath, local, Some(r), node, dir, now, valid);
      assert a == Plain(NoAction, relpath) || a == ReconcileConcurrent(relpath, local.value, r, node, dir, now);
    }
  }

  /** No decision deletes or overwrites a live local file the peer has not seen: its version is then below the remote's, or it is kept. */
  lemma UnseenEditsAreKept(relpath: string, l: FileInfo, remote: Option<FileInfo>, node: NodeId, dir: Direction, now: int, valid: string -> bool)
    requires !dir.outboundBlocked && !l.deleted
    requires remote.Some? ==> !Dominates(remote.value.version, l.version)
    ensures var a := ReconcileOne(relpath, Some(l), remote, node, dir, now, valid);
            && a.kind != Delete
            && (a.source == Remote ==> a.kind == ConflictCopy && a.conflictSource == Local)
  {
  }

  /** A share offered read-only is never changed by a peer. */
  lemma InboundBlockedChangesNothing(relpath: string, local: Option<FileInfo>, remote: Option<FileInfo>,
                                     node: NodeId, dir: Direction, now: int, valid: string -> bool)
    requires dir.inboundBlocked
    ensures var a := ReconcileOne(relpath, local, remote, node, dir, now, valid);
            a.kind == NoAction && a.source == NoSource && RowAfter(local, a) == local
  {
  }

  /** A receive-only node makes no version of its own for a live file: it keeps its row or takes the peer's. */
  lemma ReceiveOnlyAddsNoVersion(relpath: string, l: FileInfo, remote: Option<FileInfo>, node: NodeId, dir: Direction, now: int, valid: string -> bool)
    requires dir.outboundBlocked && !l.deleted
    ensures var row := RowAfter(Some(l), ReconcileOne(relpath, Some(l), remote, node, dir, now, valid));
            row == Some(l) || row == remote
  {
  }

  /** Carrying the action out asks the peer for the content of a deleted row. A directory is made without asking. */
  predicate AsksForADeletedFile(a: Action) {
    || (a.source == Remote && a.resolved.ftype == File && a.resolved.deleted)
    || (a.conflictSource == Remote && a.conflictInfo.ftype == File && a.conflictInfo.deleted)
  }

  /**
   That happens exactly when a receive-only node has a live entry concurrent
   with a tombstone of a file. The peer answers such a request with an error, so
   that revert never completes.
   */
  lemma AsksForADeletedFileIff(relpath: string, local: Option<FileInfo>, remote: Option<FileInfo>,
                               node: NodeId, dir: Direction, now: int, valid: string -> bool)
    ensures AsksForADeletedFile(ReconcileOne(relpath, local, remote, node, dir, now, valid))
       <==> && Usable(remote, dir, valid) && dir.outboundBlocked && remote.value.deleted && remote.value.ftype == File
            && local.Some? && !local.value.deleted && Concurrent(local.value.version, remote.value.version)
  {
    if local.Some? && remote.Some? {
      ExactlyOneRelation(local.value.version, remote.value.version);
      ConcurrentAsksIff(relpath, local.value, remote.value, node, dir, now);
      var a := ReconcileOne(relpath, local, remote, node, dir, now, valid);
      assert Usable(remote, dir, valid) && Concurrent(local.value.version, remote.value.version) ==>
        a == ReconcileConcurrent(relpath, local.value, remote.value, node, dir, now);
    }
  }

  lemma ConcurrentAsksIff(relpath: string, l: FileInfo, r: FileInfo, node: NodeId, dir: Direction, now: int)
    ensures AsksForADeletedFile(ReconcileConcurrent(relpath, l, r, node, dir, now))
       <==> dir.outboundBlocked && !l.deleted && r.deleted && r.ftype == File
  {
  }
}

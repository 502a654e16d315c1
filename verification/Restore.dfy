/**
 Restoring a trashed file: it moves back into the share, and a file in its way
 first goes to a trash event of its own, so nothing is lost and a restore can
 itself be undone.
 */
module Restore {
  import opened Reconcile
  import opened Disk
  import opened Apply

  datatype RestoreFaults = RestoreFaults(resolve: bool, stat: bool, put: PutFaults, mkdir: Option<nat>, move: Move, row: bool)

  predicate NoRestoreFault(f: RestoreFaults) {
    !f.resolve && !f.stat && NoPutFault(f.put) && f.mkdir.None? && f.move == Renamed && !f.row
  }

  /** Every content of the three trees is still in one of them. */
  ghost predicate AllKept(share: Tree, event: Tree, replaced: Tree, share': Tree, event': Tree, replaced': Tree) {
    Contents(share) + Contents(event) + Contents(replaced) <= Contents(share') + Contents(event') + Contents(replaced')
  }

  lemma KeptIsSubset(share: Tree, share': Tree, event': Tree)
    requires Kept(share, share', event')
    ensures Contents(share) <= Contents(share') + Contents(event')
  {
    forall n | n in Contents(share) ensures n in Contents(share') + Contents(event') {
      var p :| p in share && !share[p].Directory? && share[p] == n;
      assert IsFile(share, p);
    }
  }

  method RestoreOne(share: Tree, event: Tree, replaced: Tree, stored: Path, dest: Path, f: RestoreFaults)
    returns (ok: bool, share': Tree, event': Tree, replaced': Tree, kept: Path)
    requires Sound(share) && Sound(event) && Sound(replaced) && dest != []
    requires IsFile(event, stored)
    ensures Sound(share') && Sound(event') && Sound(replaced') && Grows(replaced, replaced')
    ensures AllKept(share, event, replaced, share', event', replaced')
    ensures ok ==> dest in share' && share'[dest] == event[stored] && stored !in event'
    ensures ok && IsFile(share, dest) ==> kept in replaced' && replaced'[kept] == share[dest]
    ensures forall q :: IsFile(share, q) && q != dest ==> Stays(share, q, share')
    ensures forall q :: IsFile(event, q) && q != stored ==> Stays(event, q, event')
    ensures (NoRestoreFault(f) && !Blocked(share, dest)
             && (Exists(share, dest) ==> IsFile(share, dest) && CanStore(replaced, dest))) ==> ok
    ensures Exists(share, dest) && !IsFile(share, dest) ==> !ok && share' == share && event' == event && replaced' == replaced
  {
    ok, share', event', replaced', kept := false, share, event, replaced, dest;
    if f.resolve || f.stat || Blocked(share, dest) { return; }
    if Exists(share, dest) {
      if !IsFile(share, dest) { return; }
      var put;
      put, share', replaced', kept := Put(share, replaced, dest, f.put);
      assert kept + dest[|dest|..] == kept;
      FileIsAll(share, dest);
      DiscardsKeeps(share, share', replaced', dest);
      if !put {
        NothingMoved(share, event, replaced, share', replaced');
        return;
      }
    }
    assert Kept(share, share', replaced') by { DiscardsKeeps(share, share', replaced', dest); }
    var cleared := share';
    assert !Blocked(cleared, dest);
    ParentNotBlocked(cleared, dest);
    var (made, withDirs) := MkdirAll(share', Parent(dest), f.mkdir);
    MkdirAllSound(share', Parent(dest), f.mkdir);
    share' := withDirs;
    KeptByGrowth(share, cleared, share', replaced');
    NothingMoved(share, event, replaced, share', replaced');
    if !made { return; }
    assert Free(share', dest) by {
      BesideIsFree(share', dest, "");
      DirsLeaveFree(cleared, share', dest);
    }
    assert Exists(event, stored) && !Blocked(event, stored);
    var base := share';
    ok, event', share' := MoveAcross(event, base, stored, dest, f.move);
    FileIsAll(event, stored);
    assert dest + stored[|stored|..] == dest;
    assert forall q :: IsFile(share, q) && q != dest ==> Stays(share, q, base) && IsFile(base, q);
    DiscardsKeeps(event, event', share', stored);
    KeptIsSubset(event, event', share');
    ContentsGrow(base, share');
    if f.row { ok := false; }
  }

  lemma NothingMoved(share: Tree, event: Tree, replaced: Tree, share': Tree, replaced': Tree)
    requires Kept(share, share', replaced') && Grows(replaced, replaced')
    ensures AllKept(share, event, replaced, share', event, replaced')
  {
    KeptIsSubset(share, share', replaced');
    ContentsGrow(replaced, replaced');
  }

  /** A file deleted on a peer's behalf and then restored is back where it was, and no other file has moved. */
  method DeleteThenRestore(share: Tree, event: Tree, replaced: Tree, p: Path, del: DeleteFaults, f: RestoreFaults)
    returns (deleted: Outcome, ok: bool, share': Tree, event': Tree)
    requires Sound(share) && Sound(event) && Sound(replaced) && p != [] && IsFile(share, p)
    ensures deleted.Applied? && ok ==> Grows(share, share') && Grows(event, event')
    ensures deleted.Applied? && NoRestoreFault(f) && !Blocked(share, p) ==> ok
  {
    var gone, trashed, stored, other, kept;
    ok := false;
    deleted, gone, trashed, stored := ApplyDelete(share, event, p, del);
    share', event' := gone, trashed;
    if !deleted.Applied? { return; }
    assert forall q :: IsFile(event, q) ==> q != stored && IsFile(trashed, q);
    assert forall q :: IsFile(share, q) && q != p ==> IsFile(gone, q) by { FileIsAll(share, p); }
    ok, share', event', other, kept := RestoreOne(gone, trashed, replaced, stored, p, f);
  }
}

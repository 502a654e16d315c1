/**
 The hold guard: it stops a change that looks like a disaster from being
 recorded or spread.

 A hold is per link: a share and either a peer or, with an empty peer, this
 node's own scans. The guard keeps its holds in memory and in a store whose
 writes may fail, without effect. `After` gives one locked section of the guard
 as a function on the held links, `Admits` says whether it lets its change
 through, and the class runs those sections in place.
 */
module HoldGuard {
  import opened Reconcile

  datatype Reason = RootUnavailable | EverythingVanished | BulkDelete | ReservedDirTaken

  datatype Link = Link(share: string, peer: string)

  datatype Hold = Hold(reason: Reason, deletes: nat, live: nat, since: int, confirmed: bool)

  datatype Safety = Safety(deleteMin: int, deletePercent: int)

  datatype Row = Row(relpath: string, deleted: bool, ignored: bool, dir: bool)

  type Holds = map<Link, Hold>

  // --- What trips a hold ---------------------------------------------------------------------

  function Trigger(s: Safety, deletes: nat, live: nat): Option<Reason> {
    if deletes == 0 then None
    else if live >= 2 && deletes >= live then Some(EverythingVanished)
    else if deletes >= s.deleteMin && deletes * 100 >= s.deletePercent * live then Some(BulkDelete)
    else None
  }

  function StillHeld(held: Reason, tripped: Option<Reason>, deletes: nat): Option<Reason> {
    if tripped.Some? || deletes == 0 then tripped
    else match held
      case ReservedDirTaken => None
      case RootUnavailable => Some(EverythingVanished)
      case _ => Some(held)
  }

  predicate Confirmable(h: Hold) {
    h.reason != RootUnavailable && h.reason != ReservedDirTaken
  }

  // --- The guard's locked sections -------------------------------------------------------------

  /** One locked section, with the clock and the store's answer as it found them. */
  datatype Op =
    | Change(link: Link, safety: Safety, deletes: nat, live: nat, now: int, ok: bool)
    | ScanFailure(share: string, reason: Reason, live: nat, now: int, ok: bool)
    | Confirmation(link: Link, ok: bool)
    | Retention(keep: set<Link>, stuck: set<Link>)   // the store fails to delete the stuck ones
    | Restart

  function ReasonFor(held: Holds, op: Op): Option<Reason>
    requires op.Change?
  {
    var tripped := Trigger(op.safety, op.deletes, op.live);
    if op.link in held then StillHeld(held[op.link].reason, tripped, op.deletes) else tripped
  }

  predicate Admits(held: Holds, op: Op)
    requires op.Change?
  {
    ReasonFor(held, op).None? || (op.link in held && held[op.link].confirmed)
  }

  function Placed(held: Holds, link: Link, reason: Reason, deletes: nat, live: nat, now: int, ok: bool): Holds {
    if link in held && held[link].reason == reason && held[link].deletes == deletes && held[link].live == live then held
    else if !ok then held
    else held[link := Hold(reason, deletes, live, if link in held then held[link].since else now, false)]
  }

  function Cleared(held: Holds, link: Link, ok: bool): Holds {
    if ok then held - {link} else held
  }

  function After(held: Holds, op: Op): Holds {
    match op
    case Change(link, _, deletes, live, now, ok) =>
      if Admits(held, op) then Cleared(held, link, ok)
      else Placed(held, link, ReasonFor(held, op).value, deletes, live, now, ok)
    case ScanFailure(share, reason, live, now, ok) =>
      Placed(held, Link(share, ""), reason, live, live, now, ok)
    case Confirmation(link, ok) =>
      if link in held && Confirmable(held[link]) && ok then held[link := held[link].(confirmed := true)] else held
    case Retention(keep, stuck) => map l | l in held && (l in keep || l in stuck) :: held[l]
    case Restart => held
  }

  function AfterAll(held: Holds, ops: seq<Op>): Holds {
    if ops == [] then held else After(AfterAll(held, ops[..|ops| - 1]), ops[|ops| - 1])
  }

  predicate IsRun(hs: seq<Holds>, ops: seq<Op>) {
    |hs| == |ops| + 1 && forall i :: 0 <= i < |ops| ==> hs[i + 1] == After(hs[i], ops[i])
  }

  // --- Safety over runs ----------------------------------------------------------------------------

  /** The link is held for deletes or a missing root, and nobody has confirmed it. */
  predicate Guarded(held: Holds, link: Link) {
    link in held && !held[link].confirmed && held[link].reason != ReservedDirTaken
  }

  /** The operation ends the hold now: an attempt the store refuses, or on a hold it cannot end, does not. */
  predicate Ends(held: Holds, op: Op, link: Link) {
    match op
    case Change(l, _, deletes, _, _, ok) => l == link && deletes == 0 && ok
    case ScanFailure(share, reason, _, _, ok) => Link(share, "") == link && reason == ReservedDirTaken && ok
    case Confirmation(l, ok) => l == link && link in held && Confirmable(held[link]) && ok
    case Retention(keep, stuck) => link !in keep && link !in stuck
    case Restart => false
  }

  /** One operation ends a hold if and only if it is one of those; a change that deletes anything is refused meanwhile. */
  lemma StepEndsIff(held: Holds, op: Op, link: Link)
    requires Guarded(held, link)
    ensures Guarded(After(held, op), link) <==> !Ends(held, op, link)
    ensures Guarded(After(held, op), link) ==> After(held, op)[link].since == held[link].since
    ensures op.Change? && op.link == link ==> (Admits(held, op) <==> op.deletes == 0)
  {
  }

  ghost predicate NoneEnds(hs: seq<Holds>, ops: seq<Op>, link: Link, i: nat, j: nat)
    requires j <= |ops| < |hs|
  {
    forall k :: i <= k < j ==> !Ends(hs[k], ops[k], link)
  }

  /**
   Once a link is held it stays held, with its date, and every change that
   would delete a live file is refused on it, whatever the thresholds become and
   whichever store writes fail, until an operation ends the hold.
   */
  lemma {:induction false} HeldLinkStaysHeld(hs: seq<Holds>, ops: seq<Op>, link: Link, i: nat, j: nat)
    requires IsRun(hs, ops) && i <= j < |hs| && Guarded(hs[i], link) && NoneEnds(hs, ops, link, i, j)
    ensures Guarded(hs[j], link) && hs[j][link].since == hs[i][link].since
    ensures forall k :: i <= k < j && ops[k].Change? && ops[k].link == link && ops[k].deletes > 0 ==> !Admits(hs[k], ops[k])
    decreases j
  {
    if i < j {
      HeldLinkStaysHeld(hs, ops, link, i, j - 1);
      StepEndsIff(hs[j - 1], ops[j - 1], link);
    }
  }

  ghost predicate GuardedThroughout(hs: seq<Holds>, link: Link, i: nat, j: nat)
    requires j < |hs|
  {
    forall k :: i <= k <= j ==> Guarded(hs[k], link)
  }

  /** Over any stretch of a run, a link held at its start is held all along if and only if no operation ends the hold. */
  lemma {:induction false} HeldThroughoutIff(hs: seq<Holds>, ops: seq<Op>, link: Link, i: nat, j: nat)
    requires IsRun(hs, ops) && i <= j < |hs| && Guarded(hs[i], link)
    ensures GuardedThroughout(hs, link, i, j) <==> NoneEnds(hs, ops, link, i, j)
    decreases j
  {
    if i < j {
      HeldThroughoutIff(hs, ops, link, i, j - 1);
      assert NoneEnds(hs, ops, link, i, j) <==> NoneEnds(hs, ops, link, i, j - 1) && !Ends(hs[j - 1], ops[j - 1], link);
      assert GuardedThroughout(hs, link, i, j) <==> GuardedThroughout(hs, link, i, j - 1) && Guarded(hs[j], link);
      if Guarded(hs[j - 1], link) { StepEndsIff(hs[j - 1], ops[j - 1], link); }
    }
  }

  /** A hold that no longer guards was released by one operation, which found it guarding and ended it. */
  lemma {:induction false} OnlyEndsReleases(hs: seq<Holds>, ops: seq<Op>, link: Link, i: nat, j: nat) returns (k: nat)
    requires IsRun(hs, ops) && i < j < |hs| && Guarded(hs[i], link) && !Guarded(hs[j], link)
    ensures i <= k < j && Guarded(hs[k], link) && Ends(hs[k], ops[k], link) && !Guarded(hs[k + 1], link)
    decreases j
  {
    if Guarded(hs[j - 1], link) {
      k := j - 1;
      StepEndsIff(hs[k], ops[k], link);
    } else {
      k := OnlyEndsReleases(hs, ops, link, i, j - 1);
    }
  }

  /** A held link keeps its date for as long as it stays held. */
  lemma {:induction false} SinceIsConstant(hs: seq<Holds>, ops: seq<Op>, link: Link, i: nat, j: nat)
    requires IsRun(hs, ops) && i <= j < |hs| && forall k :: i <= k <= j ==> link in hs[k]
    ensures hs[j][link].since == hs[i][link].since
    decreases j
  {
    if i < j {
      SinceIsConstant(hs, ops, link, i, j - 1);
      assert hs[j] == After(hs[j - 1], ops[j - 1]);
    }
  }

  /** A refused change leaves its link held if and only if it was held before or the store took the write. */
  lemma RefusalIsRememberedIff(held: Holds, op: Op)
    requires op.Change? && !Admits(held, op)
    ensures op.link in After(held, op) <==> op.link in held || op.ok
  {
  }

  /**
   So when that one write fails, restoring part of the folder lets the rest go:
   the second change would have been refused had the first been recorded.
   */
  lemma ForgottenRefusalLetsTheRestThrough(held: Holds, first: Op, second: Op)
    requires first.Change? && second.Change? && first.link == second.link && first.link !in held
    requires Trigger(first.safety, first.deletes, first.live).Some?
    requires second.deletes > 0 && Trigger(second.safety, second.deletes, second.live).None?
    ensures !Admits(held, first)
    ensures Admits(After(held, first), second) <==> !first.ok
  {
  }

  /**
   A change is admitted exactly when it deletes nothing, was confirmed, or leaves
   something of two or more live files and misses one of the two thresholds, on a
   link that is free or was only held over the reserved directory. An admitted
   change frees its link if the store lets it.
   */
  lemma AdmittedIff(held: Holds, op: Op)
    requires op.Change?
    ensures Admits(held, op)
       <==> || op.deletes == 0
            || (op.link in held && held[op.link].confirmed)
            || (&& (op.live < 2 || op.deletes < op.live)
                && (op.deletes < op.safety.deleteMin || op.deletes * 100 < op.safety.deletePercent * op.live)
                && (op.link in held ==> held[op.link].reason == ReservedDirTaken))
    ensures Admits(held, op) ==> (op.link in After(held, op) <==> op.link in held && !op.ok)
  {
  }

  /** A change over both thresholds is refused unless confirmed, and held as a bulk delete when files remain. */
  lemma BulkDeleteIsHeld(held: Holds, op: Op)
    requires op.Change? && Credit(held, op.link) == 0
    requires op.deletes > 0 && op.deletes >= op.safety.deleteMin && op.deletes * 100 >= op.safety.deletePercent * op.live
    ensures !Admits(held, op)
    ensures op.ok && (op.deletes < op.live || op.live < 2) ==>
              Guarded(After(held, op), op.link) && After(held, op)[op.link].reason == BulkDelete
  {
  }

  /**
   What a refusal the store takes puts on record: the counts, and the reason the
   change gives, or else the one the link was held for, a missing root having
   become vanished files.
   */
  lemma RefusalRecords(held: Holds, op: Op)
    requires op.Change? && op.ok && !Admits(held, op)
    ensures op.link in After(held, op)
    ensures var h := After(held, op)[op.link];
            && h.deletes == op.deletes && h.live == op.live && !h.confirmed
            && h.since == (if op.link in held then held[op.link].since else op.now)
            && (h.reason == BulkDelete || h.reason == EverythingVanished)
            && (op.live >= 2 && op.deletes >= op.live ==> h.reason == EverythingVanished)
            && (op.link in held && held[op.link].reason == RootUnavailable && h.reason == BulkDelete ==>
                  op.deletes >= op.safety.deleteMin && op.deletes * 100 >= op.safety.deletePercent * op.live)
            && (op.link !in held && h.reason == EverythingVanished ==> op.live >= 2 && op.deletes >= op.live)
    ensures forall l :: l != op.link ==> (l in After(held, op) <==> l in held) && (l in held ==> After(held, op)[l] == held[l])
  {
  }

  /** Deleting every live file of two or more trips the guard at any thresholds. */
  lemma EmptyingIsAlwaysHeld(held: Holds, op: Op)
    requires op.Change? && op.live >= 2 && op.deletes >= op.live && Credit(held, op.link) == 0
    ensures !Admits(held, op)
    ensures op.ok ==> Guarded(After(held, op), op.link)
  {
  }

  /** A hold over the folder itself is never confirmed away; any other is if the store takes it. */
  lemma ConfirmationCounts(held: Holds, link: Link, ok: bool)
    requires link in held
    ensures var h := After(held, Confirmation(link, ok));
            if held[link].reason == RootUnavailable || held[link].reason == ReservedDirTaken then h == held
            else h == if ok then held[link := held[link].(confirmed := true)] else held
  {
  }

  // --- Each confirmation admits at most one held change ---------------------------------------------

  /** A change on the link that would have been held, and was let through. */
  predicate LetThrough(held: Holds, op: Op, link: Link) {
    op.Change? && op.link == link && ReasonFor(held, op).Some? && Admits(held, op)
  }

  ghost function LetThroughCount(hs: seq<Holds>, ops: seq<Op>, link: Link, n: nat): nat
    requires |ops| < |hs| && n <= |ops|
  {
    if n == 0 then 0
    else LetThroughCount(hs, ops, link, n - 1) + if LetThrough(hs[n - 1], ops[n - 1], link) then 1 else 0
  }

  /** Confirmations of the link the store took. */
  ghost function ConfirmCount(ops: seq<Op>, link: Link, n: nat): nat
    requires n <= |ops|
  {
    if n == 0 then 0
    else ConfirmCount(ops, link, n - 1) + if ops[n - 1].Confirmation? && ops[n - 1].link == link && ops[n - 1].ok then 1 else 0
  }

  /** Held changes let through on the link whose hold the store then failed to clear. */
  ghost function UnclearedCount(hs: seq<Holds>, ops: seq<Op>, link: Link, n: nat): nat
    requires |ops| < |hs| && n <= |ops|
  {
    if n == 0 then 0
    else UnclearedCount(hs, ops, link, n - 1) + if LetThrough(hs[n - 1], ops[n - 1], link) && !ops[n - 1].ok then 1 else 0
  }

  /** A confirmation that has not been used yet. */
  function Credit(held: Holds, link: Link): nat {
    if link in held && held[link].confirmed then 1 else 0
  }

  lemma StepSpendsCredit(held: Holds, op: Op, link: Link)
    ensures (if LetThrough(held, op, link) then 1 else 0) + Credit(After(held, op), link)
         <= Credit(held, link)
            + (if op.Confirmation? && op.link == link && op.ok then 1 else 0)
            + (if LetThrough(held, op, link) && !op.ok then 1 else 0)
  {
  }

  /** No more held changes are admitted than there were confirmations, failed clears aside. */
  lemma {:induction false} ConfirmAdmitsAtMostOne(hs: seq<Holds>, ops: seq<Op>, link: Link, n: nat)
    requires IsRun(hs, ops) && n <= |ops|
    ensures LetThroughCount(hs, ops, link, n) + Credit(hs[n], link)
         <= Credit(hs[0], link) + ConfirmCount(ops, link, n) + UnclearedCount(hs, ops, link, n)
  {
    if n > 0 {
      ConfirmAdmitsAtMostOne(hs, ops, link, n - 1);
      StepSpendsCredit(hs[n - 1], ops[n - 1], link);
    }
  }

  // --- Counting what would be deleted ----------------------------------------------------------------

  predicate IsLive(r: Row) {
    !r.deleted && !r.ignored && !r.dir
  }

  /** The positions of the live rows, and of those among them that would go. */
  ghost function LiveAt(rows: seq<Row>, n: nat): (at: set<nat>)
    requires n <= |rows|
    ensures forall i: nat :: i in at <==> i < n && !rows[i].deleted && !rows[i].ignored && !rows[i].dir
  {
    set i: nat | i < n && IsLive(rows[i])
  }

  ghost function DoomedAt(rows: seq<Row>, deleting: set<string>, n: nat): set<nat>
    requires n <= |rows|
  {
    set i: nat | i < n && IsLive(rows[i]) && rows[i].relpath in deleting
  }

  lemma CountOneMore(rows: seq<Row>, deleting: set<string>, n: nat)
    requires n < |rows|
    ensures |LiveAt(rows, n + 1)| == |LiveAt(rows, n)| + if IsLive(rows[n]) then 1 else 0
    ensures |DoomedAt(rows, deleting, n + 1)|
         == |DoomedAt(rows, deleting, n)| + if IsLive(rows[n]) && rows[n].relpath in deleting then 1 else 0
  {
    OneMore(LiveAt(rows, n), LiveAt(rows, n + 1), n, IsLive(rows[n]));
    OneMore(DoomedAt(rows, deleting, n), DoomedAt(rows, deleting, n + 1), n, IsLive(rows[n]) && rows[n].relpath in deleting);
  }

  lemma OneMore(before: set<nat>, after: set<nat>, n: nat, counts: bool)
    requires n !in before && (forall i :: i in after <==> i in before || (counts && i == n))
    ensures |after| == |before| + if counts then 1 else 0
  {
    if counts {
      assert after == before + {n};
    } else {
      assert after == before;
    }
  }

  /** Everything live is doomed exactly when the counts agree. */
  lemma AllDoomedIff(rows: seq<Row>, deleting: set<string>)
    ensures |DoomedAt(rows, deleting, |rows|)| >= |LiveAt(rows, |rows|)|
       <==> forall i :: 0 <= i < |rows| && IsLive(rows[i]) ==> rows[i].relpath in deleting
  {
    var all, gone := LiveAt(rows, |rows|), DoomedAt(rows, deleting, |rows|);
    assert gone <= all;
    SubsetSize(gone, all);
    if gone == all {
      forall i | 0 <= i < |rows| && IsLive(rows[i]) ensures rows[i].relpath in deleting {
        assert i in all;
      }
    }
    if forall i :: 0 <= i < |rows| && IsLive(rows[i]) ==> rows[i].relpath in deleting {
      assert gone == all;
    }
  }

  lemma SubsetSize(a: set<nat>, b: set<nat>)
    requires a <= b
    ensures |a| >= |b| <==> a == b
  {
    assert b == a + (b - a);
    assert |b| == |a| + |b - a|;
    if |b - a| == 0 {
      assert b - a == {};
    }
  }

  method Measure(rows: seq<Row>, deleting: set<string>) returns (deletes: nat, live: nat)
    ensures live == |LiveAt(rows, |rows|)|
    ensures deletes == |DoomedAt(rows, deleting, |rows|)|
  {
    deletes, live := 0, 0;
    for i := 0 to |rows|
      invariant live == |LiveAt(rows, i)|
      invariant deletes == |DoomedAt(rows, deleting, i)|
    {
      CountOneMore(rows, deleting, i);
      if rows[i].deleted || rows[i].ignored || rows[i].dir { continue; }
      live := live + 1;
      if rows[i].relpath in deleting { deletes := deletes + 1; }
    }
  }

  // --- The guard ------------------------------------------------------------------------------------------

  class Guard {
    var held: Holds
    var store: Holds

    /** The cache mirrors the store. */
    ghost predicate Valid() reads this { held == store }

    /** A guard over the holds a store has recorded. */
    constructor Load(recorded: seq<(Link, Hold)>)
      requires forall i, j :: 0 <= i < j < |recorded| ==> recorded[i].0 != recorded[j].0
      ensures Valid()
      ensures forall i :: 0 <= i < |recorded| ==> recorded[i].0 in held && held[recorded[i].0] == recorded[i].1
      ensures forall l :: l in held ==> (l, held[l]) in recorded
    {
      var m: Holds := map[];
      for k := 0 to |recorded|
        invariant forall i :: 0 <= i < k ==> recorded[i].0 in m && m[recorded[i].0] == recorded[i].1
        invariant forall l :: l in m ==> (l, m[l]) in recorded
      {
        m := m[recorded[k].0 := recorded[k].1];
      }
      held, store := m, m;
    }

    method Place(link: Link, reason: Reason, deletes: nat, live: nat, now: int, ok: bool) returns (placed: bool)
      requires Valid()
      modifies this
      ensures Valid() && held == Placed(old(held), link, reason, deletes, live, now, ok)
      ensures placed <==> link !in old(held) && link in held
    {
      var since := now;
      if link in held {
        var was := held[link];
        if was.reason == reason && was.deletes == deletes && was.live == live { return false; }
        since := was.since;
      }
      if !ok { return false; }
      placed := link !in held;
      var h := Hold(reason, deletes, live, since, false);
      store := store[link := h];
      held := held[link := h];
    }

    method Clear(link: Link, ok: bool) returns (cleared: bool)
      requires Valid()
      modifies this
      ensures Valid() && held == Cleared(old(held), link, ok)
      ensures cleared <==> link in old(held) && link !in held
    {
      if link !in held { return false; }
      if !ok { return false; }
      store := store - {link};
      held := held - {link};
      cleared := true;
    }

    method Decide(link: Link, safety: Safety, deletes: nat, live: nat, now: int, ok: bool)
      returns (apply: bool, released: bool)
      requires Valid()
      modifies this
      ensures Valid()
      ensures var op := Change(link, safety, deletes, live, now, ok);
              apply == Admits(old(held), op) && held == After(old(held), op)
      ensures released <==> apply && link.peer == "" && link in old(held) && link !in held
    {
      var reason := Trigger(safety, deletes, live);
      var wasHeld := link in held;
      if wasHeld { reason := StillHeld(held[link].reason, reason, deletes); }
      if reason.None? || (wasHeld && held[link].confirmed) {
        var cleared := Clear(link, ok);
        return true, cleared && link.peer == "";
      }
      var _ := Place(link, reason.value, deletes, live, now, ok);
      return false, false;
    }

    /**
     A local scan. Emptying a share of two or more live files is refused at any
     thresholds unless a hold on it has been confirmed.
     */
    method Scan(share: string, safety: Safety, existing: seq<Row>, deleted: seq<string>, now: int, ok: bool)
      returns (apply: bool, released: bool)
      requires Valid()
      modifies this
      ensures Valid()
      ensures var gone := set p | p in deleted;
              var op := Change(Link(share, ""), safety, |DoomedAt(existing, gone, |existing|)|, |LiveAt(existing, |existing|)|, now, ok);
              apply == Admits(old(held), op) && held == After(old(held), op)
      ensures released <==> apply && Link(share, "") in old(held) && Link(share, "") !in held
      ensures |LiveAt(existing, |existing|)| >= 2
              && (forall i :: 0 <= i < |existing| && IsLive(existing[i]) ==> existing[i].relpath in deleted)
              && !(Link(share, "") in old(held) && old(held)[Link(share, "")].confirmed)
              ==> !apply
    {
      var deleting := Collect(deleted);
      var deletes, live := Measure(existing, deleting);
      AllDoomedIff(existing, deleting);
      apply, released := Decide(Link(share, ""), safety, deletes, live, now, ok);
    }

    /** A failed scan: a foreign reserved directory, or a missing root while the index has live files. */
    method ScanFailed(share: string, reservedDirTaken: bool, rootUnavailable: bool, existing: seq<Row>, now: int, ok: bool)
      requires Valid()
      modifies this
      ensures Valid()
      ensures var live := |LiveAt(existing, |existing|)|;
              held == if reservedDirTaken then After(old(held), ScanFailure(share, ReservedDirTaken, 0, now, ok))
                      else if live > 0 && rootUnavailable then After(old(held), ScanFailure(share, RootUnavailable, live, now, ok))
                      else old(held)
    {
      var reason, deletes, total := ReservedDirTaken, 0, 0;
      if !reservedDirTaken {
        var _, live := Measure(existing, {});
        if live == 0 || !rootUnavailable { return; }
        reason, deletes, total := RootUnavailable, live, live;
      }
      var _ := Place(Link(share, ""), reason, deletes, total, now, ok);
    }

    /** Sections that others run while this one is between its own. */
    method Others(ops: seq<Op>)
      requires Valid()
      modifies this
      ensures Valid() && held == AfterAll(old(held), ops)
    {
      for i := 0 to |ops|
        invariant Valid() && held == AfterAll(old(held), ops[..i])
      {
        assert ops[..i + 1][..i] == ops[..i];
        held := After(held, ops[i]);
        store := held;
      }
      assert ops[..|ops|] == ops;
    }

    /**
     A peer's pass: two locked sections, with any sections of others `between`.
     If it finds this node's own copy held it is refused and changes nothing;
     otherwise it is decided by the holds there are when it comes to that.
     */
    method Pass(share: string, peer: string, safety: Safety, local: seq<Row>, deleted: seq<string>, now: int, ok: bool, between: seq<Op>)
      returns (apply: bool)
      requires Valid() && peer != ""
      modifies this
      ensures Valid()
      ensures Link(share, "") in old(held) ==> !apply && held == old(held)
      ensures Link(share, "") !in old(held) ==>
                var gone := set p | p in deleted;
                var op := Change(Link(share, peer), safety, |DoomedAt(local, gone, |local|)|, |LiveAt(local, |local|)|, now, ok);
                var found := AfterAll(old(held), between);
                apply == Admits(found, op) && held == After(found, op)
    {
      if Link(share, "") in held { return false; }
      var deleting := Collect(deleted);
      var deletes, live := Measure(local, deleting);
      Others(between);
      var admitted, _ := Decide(Link(share, peer), safety, deletes, live, now, ok);
      return admitted;
    }

    method Confirm(link: Link, ok: bool) returns (r: Option<Hold>)
      requires Valid()
      modifies this
      ensures Valid() && held == After(old(held), Confirmation(link, ok))
      ensures r == if link in old(held) && Confirmable(old(held)[link]) && ok then Some(held[link]) else None
    {
      if link in held && Confirmable(held[link]) {
        var h := held[link].(confirmed := true);
        if !ok { return None; }
        store := store[link := h];
        held := held[link := h];
        return Some(h);
      }
      return None;
    }

    method Retain(keep: set<Link>, stuck: set<Link>)
      requires Valid()
      modifies this
      ensures Valid() && held == After(old(held), Retention(keep, stuck))
    {
      var todo := held.Keys;
      while todo != {}
        invariant Valid() && todo <= held.Keys <= old(held).Keys
        invariant forall l :: l in held ==> held[l] == old(held)[l]
        invariant forall l :: l in old(held) && (l in todo || l in keep || l in stuck) ==> l in held
        invariant forall l :: l in held && l !in todo ==> l in keep || l in stuck
        decreases |todo|
      {
        var link :| link in todo;
        todo := todo - {link};
        if link in keep { continue; }
        if link !in stuck {
          store := store - {link};
          held := held - {link};
        }
      }
    }
  }

  method Collect(paths: seq<string>) returns (all: set<string>)
    ensures all == set p | p in paths
  {
    all := {};
    for i := 0 to |paths|
      invariant all == set p | p in paths[..i]
    {
      assert paths[..i + 1] == paths[..i] + [paths[i]];
      all := all + {paths[i]};
    }
    assert paths[..|paths|] == paths;
  }
}

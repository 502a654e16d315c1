/**
 Carrying out a reconcile plan on disk, with the trash enabled: every file the
 plan discards is moved into the pass's trash event first. Any system call may
 fail; the fault records say which ones do, and every contract holds for all of
 them. The share and the event are passed in and out as trees.
 */
module Apply {
  import opened Reconcile
  import opened Disk
  import opened Calendar

  // --- What must never happen ----------------------------------------------------------------

  /** Every file content of the old share is in the new share or in the event. */
  ghost predicate Kept(share: Tree, share': Tree, event': Tree) {
    forall p :: IsFile(share, p) ==> share[p] in Contents(share') || share[p] in Contents(event')
  }

  /** Only files at or below `p` left the share, and those are in the event. */
  ghost predicate Discards(share: Tree, share': Tree, event': Tree, p: Path) {
    forall q :: IsFile(share, q) ==> Stays(share, q, share') || (p <= q && share[q] in Contents(event'))
  }

  // --- What may change --------------------------------------------------------------------------

  function Parent(p: Path): Path
    requires p != []
  {
    p[..|p| - 1]
  }

  /** Neither path is the other or holds it. */
  predicate Apart(a: Path, b: Path) { !(a <= b) && !(b <= a) }

  predicate IsTempName(name: string) { ".syncat.tmp." <= name }

  /** A path that passed validation: it names no staging file. */
  predicate ValidPath(p: Path) { p != [] && forall i :: 0 <= i < |p| ==> !IsTempName(p[i]) }

  /** A staging file beside one of the paths. */
  predicate IsStaging(q: Path, ts: set<Path>) {
    q != [] && IsTempName(q[|q| - 1]) && exists p :: p in ts && p != [] && Parent(p) == Parent(q)
  }

  /** At or below one of the paths. */
  predicate Under(q: Path, ts: set<Path>) { exists p :: p in ts && p <= q }

  /** One of the paths, or above one. */
  predicate Above(q: Path, ts: set<Path>) { exists p :: p in ts && q <= p }

  /**
   Away from the paths everything stays, and nothing is new but directories
   above them and, where a staging file may be left, one beside them.
   */
  ghost predicate OnlyAt(t: Tree, t': Tree, ts: set<Path>, staged: bool) {
    && (forall q :: q in t && !Under(q, ts) ==> Stays(t, q, t'))
    && (forall q :: q in t' && q !in t && !Under(q, ts) ==> (t'[q].Directory? && Above(q, ts)) || (staged && IsStaging(q, ts)))
  }

  /** The same of a single path. */
  ghost predicate OnlyAtOne(t: Tree, t': Tree, p: Path, staged: bool) {
    && (forall q :: q in t && !(p <= q) ==> Stays(t, q, t'))
    && (forall q :: q in t' && q !in t && !(p <= q) ==> (t'[q].Directory? && q <= p) || (staged && IsStagingBeside(q, p)))
  }

  predicate IsStagingBeside(q: Path, p: Path) {
    q != [] && p != [] && IsTempName(q[|q| - 1]) && Parent(p) == Parent(q)
  }

  lemma OneIsOnlyAt(t: Tree, t': Tree, p: Path, staged: bool)
    requires OnlyAtOne(t, t', p, staged)
    ensures OnlyAt(t, t', {p}, staged)
  {
    forall q ensures (p <= q ==> Under(q, {p})) && (q <= p ==> Above(q, {p})) {
      assert p in {p};
    }
  }

  lemma OneThenOne(t0: Tree, t1: Tree, t2: Tree, p: Path, staged: bool)
    requires OnlyAtOne(t0, t1, p, false) && OnlyAtOne(t1, t2, p, staged)
    ensures OnlyAtOne(t0, t2, p, staged)
  {
  }

  lemma OnlyAtThen(t0: Tree, t1: Tree, t2: Tree, a: set<Path>, b: set<Path>, staged: bool, staged': bool)
    requires OnlyAt(t0, t1, a, staged) && OnlyAt(t1, t2, b, staged')
    ensures OnlyAt(t0, t2, a + b, staged || staged')
  {
    forall q ensures (Under(q, a) ==> Under(q, a + b)) && (Under(q, b) ==> Under(q, a + b)) {
      WiderTargets(q, a, a + b);
      WiderTargets(q, b, a + b);
    }
    forall q | q in t2 && q !in t0 && !Under(q, a + b)
      ensures (t2[q].Directory? && Above(q, a + b)) || ((staged || staged') && IsStaging(q, a + b))
    {
      if q in t1 { WiderTargets(q, a, a + b); } else { WiderTargets(q, b, a + b); }
    }
  }

  lemma WiderTargets(q: Path, a: set<Path>, b: set<Path>)
    requires a <= b
    ensures Above(q, a) ==> Above(q, b)
    ensures IsStaging(q, a) ==> IsStaging(q, b)
    ensures Under(q, a) ==> Under(q, b)
  {
  }

  lemma OnlyAtMore(t: Tree, t': Tree, a: set<Path>, b: set<Path>, staged: bool)
    requires OnlyAt(t, t', a, staged) && a <= b
    ensures OnlyAt(t, t', b, staged) && OnlyAt(t, t', b, true)
  {
    forall q ensures (Above(q, a) ==> Above(q, b)) && (IsStaging(q, a) ==> IsStaging(q, b)) && (Under(q, a) ==> Under(q, b)) {
      WiderTargets(q, a, b);
    }
  }

  lemma KeptThenKept(s0: Tree, s1: Tree, e1: Tree, s2: Tree, e2: Tree)
    requires Kept(s0, s1, e1) && Kept(s1, s2, e2) && Grows(e1, e2)
    ensures Kept(s0, s2, e2)
  {
    forall p | IsFile(s0, p) ensures s0[p] in Contents(s2) || s0[p] in Contents(e2) {
      if s0[p] in Contents(s1) {
        var q :| q in s1 && !s1[q].Directory? && s1[q] == s0[p];
        assert IsFile(s1, q);
      } else {
        ContentsGrow(e1, e2);
      }
    }
  }

  lemma ContentsGrow(e1: Tree, e2: Tree)
    requires Grows(e1, e2)
    ensures Contents(e1) <= Contents(e2)
  {
    forall n | n in Contents(e1) ensures n in Contents(e2) {
      var q :| q in e1 && !e1[q].Directory? && e1[q] == n;
      assert IsFile(e1, q);
    }
  }

  lemma InContents(t: Tree, p: Path)
    requires IsFile(t, p)
    ensures t[p] in Contents(t)
  {
  }

  lemma GrowsThenGrows(e0: Tree, e1: Tree, e2: Tree)
    requires Grows(e0, e1) && Grows(e1, e2)
    ensures Grows(e0, e2)
  {
    forall p | IsFile(e0, p) ensures Stays(e0, p, e2) { assert IsFile(e1, p); }
  }

  lemma DiscardsKeeps(share: Tree, share': Tree, event': Tree, p: Path)
    requires Discards(share, share', event', p)
    ensures Kept(share, share', event')
  {
    forall q | IsFile(share, q) && Stays(share, q, share') ensures share[q] in Contents(share') { InContents(share', q); }
  }

  // --- The trash ---------------------------------------------------------------------------------

  datatype Move = Renamed | Refused | CrossDevice(copied: bool, removed: bool)

  datatype PutFaults = PutFaults(cancelled: bool, stat: bool, open: bool, join: bool, mkdir: Option<nat>, move: Move, log: bool)

  const MAX_COPIES := 10000

  /** Nothing is at the path and nothing stands in its way. */
  predicate Free(t: Tree, p: Path) { !Exists(t, p) && !Blocked(t, p) }

  function Decimal(n: nat): string {
    if n < 10 then ["0123456789"[n]] else Decimal(n / 10) + ["0123456789"[n % 10]]
  }

  /** Where the extension of a file name starts: at its last dot. */
  function ExtAt(name: string, i: nat): (e: nat)
    requires i <= |name|
    ensures e <= |name|
  {
    if i == 0 then |name| else if name[i - 1] == '.' then i - 1 else ExtAt(name, i - 1)
  }

  /** The path itself for the first copy, then numbered names beside it. */
  function Candidate(p: Path, n: nat): (c: Path)
    requires p != []
    ensures |c| == |p| && c[..|p| - 1] == p[..|p| - 1]
  {
    if n <= 1 then p
    else
      var name := p[|p| - 1];
      var e := ExtAt(name, |name|);
      p[..|p| - 1] + [name[..e] + " (" + Decimal(n) + ")" + name[e..]]
  }

  lemma {:induction false} DecimalReads(n: nat)
    ensures Number(Decimal(n)) == n
    decreases n
  {
    var s := Decimal(n);
    assert "0123456789"[n % 10] as int - '0' as int == n % 10;
    if n < 10 {
      assert s[..0] == "";
    } else {
      DecimalReads(n / 10);
      assert s[..|s| - 1] == Decimal(n / 10);
    }
  }

  lemma {:induction false} NoDotAfterExtAt(name: string, i: nat)
    requires i <= |name|
    ensures var e := ExtAt(name, i);
            if e < i then name[e] == '.' && forall k :: e < k < i ==> name[k] != '.'
            else e == |name| && forall k :: 0 <= k < i ==> name[k] != '.'
  {
    if i > 0 && name[i - 1] != '.' { NoDotAfterExtAt(name, i - 1); }
  }

  function Stem(name: string): string { name[..ExtAt(name, |name|)] }

  function Ext(name: string): string { name[ExtAt(name, |name|)..] }

  /** A numbered name has the number before the extension, which starts at the last dot. */
  lemma NumberedName(p: Path, n: nat)
    requires p != []
    ensures var name := p[|p| - 1];
            && Stem(name) + Ext(name) == name
            && Candidate(p, n) == (if n <= 1 then p else Parent(p) + [Stem(name) + " (" + Decimal(n) + ")" + Ext(name)])
            && (Ext(name) != "" ==> Ext(name)[0] == '.')
            && forall k :: (if Ext(name) == "" then -1 else |Stem(name)|) < k < |name| ==> name[k] != '.'
  {
    var name := p[|p| - 1];
    NoDotAfterExtAt(name, |name|);
    assert Stem(name) + Ext(name) == name;
  }

  /** So the candidates of one path are all different. */
  lemma CandidatesDiffer(p: Path, n: nat, m: nat)
    requires p != [] && 1 <= n < m
    ensures Candidate(p, n) != Candidate(p, m)
  {
    NumberedName(p, n);
    NumberedName(p, m);
    DecimalReads(n);
    DecimalReads(m);
    var name := p[|p| - 1];
    SameNumber(Stem(name), Ext(name), Decimal(n), Decimal(m));
    assert n >= 2 ==> Candidate(p, n)[|p| - 1] == Stem(name) + " (" + Decimal(n) + ")" + Ext(name);
    assert Candidate(p, m)[|p| - 1] == Stem(name) + " (" + Decimal(m) + ")" + Ext(name);
    assert n == 1 ==> Candidate(p, n)[|p| - 1] == name;
  }

  lemma SameNumber(stem: string, ext: string, a: string, b: string)
    ensures stem + " (" + a + ")" + ext == stem + " (" + b + ")" + ext ==> a == b
    ensures |stem + " (" + a + ")" + ext| > |stem + ext|
  {
    var s, t := stem + " (" + a + ")" + ext, stem + " (" + b + ")" + ext;
    assert s[|stem| + 2..|stem| + 2 + |a|] == a;
    assert t[|stem| + 2..|stem| + 2 + |b|] == b;
  }

  predicate CanStore(event: Tree, p: Path)
    requires p != []
  {
    exists n :: 1 <= n < MAX_COPIES && Free(event, Candidate(p, n))
  }

  method FreeStoredPath(event: Tree, p: Path) returns (found: bool, stored: Path)
    requires p != []
    ensures found <==> CanStore(event, p)
    ensures found ==> Free(event, stored) && |stored| == |p| && stored[..|p| - 1] == p[..|p| - 1]
    ensures Free(event, p) ==> stored == p
  {
    if Free(event, p) {
      assert Candidate(p, 1) == p;
      return true, p;
    }
    var n := 2;
    while n < MAX_COPIES
      invariant 2 <= n <= MAX_COPIES
      invariant forall m :: 1 <= m < n ==> !Free(event, Candidate(p, m))
    {
      if Free(event, Candidate(p, n)) { return true, Candidate(p, n); }
      n := n + 1;
    }
    return false, p;
  }

  /** Nothing fails that the state of the disk does not make fail. */
  predicate NoPutFault(f: PutFaults) {
    !f.cancelled && !f.stat && !f.open && !f.join && f.mkdir.None? && f.move == Renamed && !f.log
  }

  /** The move itself, from one tree onto a free path of another: a rename, or a copy between devices. */
  method MoveAcross(share: Tree, event: Tree, p: Path, stored: Path, move: Move)
    returns (ok: bool, share': Tree, event': Tree)
    requires Sound(share) && Sound(event) && Exists(share, p) && !Blocked(share, p) && Free(event, stored)
    ensures Sound(share') && Sound(event') && Grows(event, event') && Discards(share, share', event', p)
    ensures forall q :: q in share' ==> q in share && share'[q] == share[q]
    ensures forall q :: q in share && !(p <= q) ==> q in share'
    ensures forall q :: q in event ==> Stays(event, q, event')
    ensures forall q :: q in event' && q !in event ==> stored <= q
    ensures ok ==> !Exists(share', p) && forall q :: q in share && p <= q ==> stored + q[|p|..] in event' && event'[stored + q[|p|..]] == share[q]
    ensures move == Renamed ==> ok
  {
    ok, share', event' := false, share, event;
    match move {
      case Renamed =>
        share' := Without(share, p);
        event' := Grafted(event, share, p, stored);
        WithoutSound(share, p);
        GraftedAt(event, share, p, stored);
        GraftedSound(event, share, p, stored);
        forall q | IsFile(share, q) && p <= q ensures share[q] in Contents(event') { InContents(event', stored + q[|p|..]); }
        ok := true;
      case Refused =>
      case CrossDevice(copied, removed) =>
        // Only a file or a link can be copied; a failed copy is cleaned up.
        if IsFile(share, p) && copied {
          event' := event[stored := share[p]];
          AddedSound(event, stored, share[p]);
          InContents(event', stored);
          if removed {
            share' := share - {p};
            FileIsAll(share, p);
            assert stored + p[|p|..] == stored;
            ok := true;
          }
        }
    }
  }

  lemma AddedSound(t: Tree, p: Path, n: Node)
    requires Sound(t) && Free(t, p)
    ensures Sound(t[p := n]) && Grows(t, t[p := n])
  {
    var r := t[p := n];
    forall q, i | q in r && 0 <= i < |q| ensures !IsFile(r, q[..i]) {
      assert q[..i] == p ==> p <= q;
      if q != p { assert !Blocked(t, q); }
    }
  }

  /** Below a file there is nothing, so removing it removes all that is at or below its path. */
  lemma FileIsAll(t: Tree, p: Path)
    requires Sound(t) && IsFile(t, p)
    ensures t - {p} == Without(t, p) && Sound(t - {p}) && !Exists(t - {p}, p)
    ensures forall q :: q in t && p <= q ==> q == p
  {
    forall q | q in t && p <= q ensures q == p {
      assert !Blocked(t, q);
      assert q[..|p|] == p;
    }
    WithoutSound(t, p);
  }

  method Put(share: Tree, event: Tree, p: Path, f: PutFaults)
    returns (ok: bool, share': Tree, event': Tree, stored: Path)
    requires Sound(share) && Sound(event) && p != []
    ensures Sound(share') && Sound(event') && Grows(event, event') && Discards(share, share', event', p)
    ensures forall q :: q in share' ==> q in share && share'[q] == share[q]
    ensures forall q :: q in share && !(p <= q) ==> q in share'
    ensures Free(event, p) ==> OnlyAtOne(event, event', p, false)
    ensures ok ==> !Exists(share', p)
    ensures ok && Exists(share, p) ==> !Exists(event, stored)
    ensures ok && Exists(share, p) ==>
              forall q :: q in share && p <= q ==> stored + q[|p|..] in event' && event'[stored + q[|p|..]] == share[q]
    ensures !Exists(share, p) ==> share' == share && event' == event
    ensures NoPutFault(f) && !Blocked(share, p) && (Exists(share, p) ==> CanStore(event, p)) ==> ok
  {
    ok, share', event', stored := false, share, event, p;
    if f.cancelled || f.stat || Blocked(share, p) { return; }
    if !Exists(share, p) { return true, share, event, p; }
    if f.open || f.join { return; }
    var found, dest := FreeStoredPath(event, p);
    if !found { return; }
    stored := dest;
    var dir := dest[..|dest| - 1];
    var (made, withDirs) := MkdirAll(event, dir, f.mkdir);
    MkdirAllSound(event, dir, f.mkdir);
    event' := withDirs;
    ParentIsFree(event, dest);
    if !made { return; }
    assert Free(event', dest) by { StillFree(event, event', dest, dir); }
    ok, share', event' := MoveAcross(share, event', p, dest, f.move);
    assert Free(event, p) ==> dest == p && dir <= p;
    if f.log { ok := false; }
  }

  lemma ParentIsFree(t: Tree, p: Path)
    requires p != [] && Free(t, p)
    ensures !Blocked(t, p[..|p| - 1]) && !IsFile(t, p[..|p| - 1])
  {
    var dir := p[..|p| - 1];
    assert forall i :: 0 <= i < |dir| ==> dir[..i] == p[..i];
  }

  lemma StillFree(t: Tree, r: Tree, p: Path, dir: Path)
    requires Free(t, p) && |dir| < |p|
    requires forall q :: q in r && q !in t ==> r[q] == Directory && q <= dir
    requires forall q :: IsFile(r, q) <==> IsFile(t, q)
    ensures Free(r, p)
  {
  }

  // --- Installing a pulled file ---------------------------------------------------------------------------

  /** What arrives for a pull, and what fails on the way to its place. */
  datatype InstallFaults = InstallFaults(
    resolve: bool,
    mkdir: Option<nat>,
    suffix: string,                      // the random part of the staging file's name
    create: bool,
    partial: seq<Byte>,                  // what the staging file holds if the pull fails
    received: Option<(int, seq<Byte>)>,  // size and digest of what a finished pull wrote
    finish: bool,
    put: PutFaults,
    rename: bool,
    cleanup: bool)

  function TempName(f: InstallFaults): string { ".syncat.tmp." + f.suffix }

  predicate NoInstallFault(f: InstallFaults, info: FileInfo, dest: Path)
    requires dest != []
  {
    && !f.resolve && f.mkdir.None? && !f.create && f.received == Some((info.size, info.sha256)) && !f.finish
    && NoPutFault(f.put) && !f.rename && TempName(f) != dest[|dest| - 1]
  }

  method PullAndInstall(share: Tree, event: Tree, dest: Path, info: FileInfo, f: InstallFaults)
    returns (ok: bool, share': Tree, event': Tree)
    requires Sound(share) && Sound(event) && dest != []
    ensures Sound(share') && Sound(event') && Grows(event, event') && Discards(share, share', event', dest)
    ensures OnlyAtOne(share, share', dest, !ok) && (Free(event, dest) ==> OnlyAtOne(event, event', dest, false))
    ensures ok && info.ftype.File? ==> dest in share' && share'[dest] == Regular(info.sha256)
    ensures ok && info.ftype.Dir? ==> dest in share' && share'[dest] == Directory && event' == event
    ensures ok && info.ftype.File? && IsFile(share, dest) ==> share[dest] in Contents(event')
    ensures info.ftype.Symlink? ==> !ok && share' == share && event' == event
    ensures (info.ftype.File? && NoInstallFault(f, info, dest) && !Blocked(share, dest) && !Exists(share, Parent(dest) + [TempName(f)])
             && (Exists(share, dest) ==> CanStore(event, dest))) ==> ok
    ensures info.ftype.Dir? && !f.resolve && f.mkdir.None? && !Blocked(share, dest) && !IsFile(share, dest) ==> ok
  {
    ok, share', event' := false, share, event;
    if info.ftype.Symlink? || f.resolve { return; }
    var (made, base) := MkdirAll(share, Parent(dest), f.mkdir);
    MkdirAllSound(share, Parent(dest), f.mkdir);
    if !Blocked(share, dest) { ParentNotBlocked(share, dest); }
    ParentDirsOnly(share, base, dest);
    share' := base;
    if !made { return; }
    if info.ftype.Dir? {
      var (madeDir, withDir) := MkdirAll(base, dest, f.mkdir);
      MkdirAllSound(base, dest, f.mkdir);
      ok, share' := madeDir, withDir;
      OneThenOne(share, base, share', dest, !ok);
      return;
    }
    ok, share', event' := InstallFile(base, event, dest, info, f);
    OneThenOne(share, base, share', dest, !ok);
    assert forall q :: IsFile(share, q) ==> IsFile(base, q) && base[q] == share[q];
  }

  lemma ParentDirsOnly(t: Tree, r: Tree, p: Path)
    requires p != [] && (forall q :: q in t ==> Stays(t, q, r))
    requires forall q :: q in r && q !in t ==> r[q] == Directory && q <= Parent(p)
    ensures OnlyAtOne(t, r, p, false) && (Exists(r, p) <==> Exists(t, p))
  {
  }

  /** The file is staged beside its place, checked, and put there. */
  method InstallFile(share: Tree, event: Tree, dest: Path, info: FileInfo, f: InstallFaults)
    returns (ok: bool, share': Tree, event': Tree)
    requires Sound(share) && Sound(event) && dest != [] && !Blocked(share, Parent(dest)) && !IsFile(share, Parent(dest))
    ensures Sound(share') && Sound(event') && Grows(event, event') && Discards(share, share', event', dest)
    ensures OnlyAtOne(share, share', dest, !ok) && (Free(event, dest) ==> OnlyAtOne(event, event', dest, false))
    ensures ok ==> dest in share' && share'[dest] == Regular(info.sha256)
    ensures ok && IsFile(share, dest) ==> share[dest] in Contents(event')
    ensures (NoInstallFault(f, info, dest) && !Exists(share, Parent(dest) + [TempName(f)])
             && (Exists(share, dest) ==> CanStore(event, dest))) ==> ok
  {
    ok, share', event' := false, share, event;
    var tmp := Parent(dest) + [TempName(f)];
    if f.create || Exists(share, tmp) { return; }
    BesideIsFree(share, dest, TempName(f));
    assert IsStagingBeside(tmp, dest);
    if f.received.None? || f.received.value != (info.size, info.sha256) || f.finish {
      share' := FailedPull(share, dest, tmp, f);
      return;
    }
    share' := share[tmp := Regular(info.sha256)];
    AddedSound(share, tmp, Regular(info.sha256));
    assert !Blocked(share', dest) by { assert forall i :: 0 <= i < |dest| ==> dest[..i] != tmp; }
    ok, share', event' := Commit(share, share', event, dest, tmp, info.sha256, f);
  }

  /** A pull that fails leaves nothing, or its staging file if that cannot be removed. */
  method FailedPull(share: Tree, dest: Path, tmp: Path, f: InstallFaults) returns (share': Tree)
    requires Sound(share) && Free(share, tmp) && IsStagingBeside(tmp, dest)
    ensures Sound(share') && OnlyAtOne(share, share', dest, true) && forall q :: IsFile(share, q) ==> Stays(share, q, share')
  {
    AddedSound(share, tmp, Regular(f.partial));
    share' := share[tmp := Regular(f.partial)];
    if !f.cleanup { share' := Unlink(share, share', tmp); }
  }

  predicate Installed(info: FileInfo, path: Path, share: Tree) {
    match info.ftype
    case File => path in share && share[path] == Regular(info.sha256)
    case Dir => path in share && share[path] == Directory
    case Symlink => false
  }

  /** No call fails and nothing is in the way of the install. */
  ghost predicate InstallWants(share: Tree, dest: Path, info: FileInfo, f: InstallFaults)
    requires dest != []
  {
    !Blocked(share, dest) &&
    match info.ftype
    case File => NoInstallFault(f, info, dest) && !Exists(share, Parent(dest) + [TempName(f)])
    case Dir => !f.resolve && f.mkdir.None? && !IsFile(share, dest)
    case Symlink => false
  }

  /** And the event has room for what it replaces. */
  ghost predicate InstallReady(share: Tree, event: Tree, dest: Path, info: FileInfo, f: InstallFaults)
    requires dest != []
  {
    InstallWants(share, dest, info, f) && (info.ftype.File? && Exists(share, dest) ==> CanStore(event, dest))
  }

  lemma ParentNotBlocked(t: Tree, p: Path)
    requires p != [] && !Blocked(t, p)
    ensures !Blocked(t, Parent(p)) && !IsFile(t, Parent(p))
  {
    assert forall i :: 0 <= i < |Parent(p)| ==> Parent(p)[..i] == p[..i];
  }

  lemma BesideIsFree(t: Tree, dest: Path, name: string)
    requires dest != [] && !Blocked(t, Parent(dest)) && !IsFile(t, Parent(dest))
    ensures !Blocked(t, Parent(dest) + [name]) && !Blocked(t, dest)
  {
    var p := Parent(dest) + [name];
    forall i | 0 <= i < |p| ensures !IsFile(t, p[..i]) && !IsFile(t, dest[..i]) {
      assert p[..i] == Parent(dest)[..i] == dest[..i];
      assert i == |Parent(dest)| ==> p[..i] == Parent(dest);
    }
  }

  /** The staging file is removed if it is still there. */
  method Unlink(ghost base: Tree, share: Tree, tmp: Path) returns (share': Tree)
    requires Sound(share) && !Exists(base, tmp)
    ensures Sound(share') && share' == share - {tmp}
    ensures forall q :: IsFile(base, q) && Stays(base, q, share) ==> Stays(base, q, share')
  {
    share' := share - {tmp};
    forall q | q in share' ensures !Blocked(share', q) { assert !Blocked(share, q); }
  }

  /** Trash what is in the way of the staged file, then rename it into place. */
  method Commit(ghost base: Tree, share: Tree, event: Tree, dest: Path, tmp: Path, digest: seq<Byte>, f: InstallFaults)
    returns (ok: bool, share': Tree, event': Tree)
    requires Sound(share) && Sound(base) && Sound(event) && dest != [] && |tmp| == |dest|
    requires !Exists(base, tmp) && share == base[tmp := Regular(digest)] && !Blocked(share, dest)
    requires Parent(tmp) == Parent(dest) && IsTempName(tmp[|tmp| - 1])
    ensures Sound(share') && Sound(event') && Grows(event, event') && Discards(base, share', event', dest)
    ensures OnlyAtOne(base, share', dest, !ok) && (Free(event, dest) ==> OnlyAtOne(event, event', dest, false))
    ensures ok ==> dest in share' && share'[dest] == Regular(digest)
    ensures ok && IsFile(base, dest) ==> base[dest] in Contents(event')
    ensures NoPutFault(f.put) && !f.rename && tmp != dest && (Exists(base, dest) ==> CanStore(event, dest)) ==> ok
  {
    assert forall q :: IsFile(base, q) ==> q != tmp && Stays(base, q, share);
    if tmp != dest { SameLength(share, base, tmp, dest); }
    var stored;
    ok, share', event', stored := Put(share, event, dest, f.put);
    assert forall q :: IsFile(base, q) ==> IsFile(share, q) && share[q] == base[q];
    assert Discards(base, share', event', dest);
    var put := share';
    TrashedOnlyAt(base, put, tmp, dest, Regular(digest));
    if ok && !f.rename {
      var (moved, renamed) := Rename(put, tmp, dest);
      RenameMoves(put, tmp, dest);
      TmpStays(share, put, tmp, dest);
      if moved {
        assert tmp in share && tmp in put && put[tmp] == Regular(digest) by { TmpIsAll(share, put, tmp); }
        assert dest + tmp[|tmp|..] == dest;
        OnlyTmpMoves(base, share, put, renamed, event', tmp, dest);
        RenamedOnlyAt(base, put, renamed, tmp, dest);
        return true, renamed, event';
      }
    }
    ok := false;
    if !f.cleanup { share' := Unlink(base, put, tmp); }
  }

  lemma TrashedOnlyAt(base: Tree, put: Tree, tmp: Path, dest: Path, n: Node)
    requires tmp !in base && IsStagingBeside(tmp, dest)
    requires forall q :: q in put ==> q in base[tmp := n] && put[q] == base[tmp := n][q]
    requires forall q :: q in base[tmp := n] && !(dest <= q) ==> q in put
    ensures OnlyAtOne(base, put, dest, true) && OnlyAtOne(base, put - {tmp}, dest, false)
  {
  }

  lemma RenamedOnlyAt(base: Tree, put: Tree, renamed: Tree, tmp: Path, dest: Path)
    requires OnlyAtOne(base, put - {tmp}, dest, false) && !Exists(base, tmp) && !Exists(renamed, tmp)
    requires forall q :: q in put && !(tmp <= q) ==> q in renamed && renamed[q] == put[q]
    requires forall q :: q in renamed ==> (q in put && renamed[q] == put[q]) || dest <= q
    ensures OnlyAtOne(base, renamed, dest, false)
  {
  }

  lemma SameLength(share: Tree, base: Tree, tmp: Path, dest: Path)
    requires |tmp| == |dest| && tmp != dest && tmp !in base && tmp in share
    requires share.Keys == base.Keys + {tmp}
    ensures Exists(share, dest) <==> Exists(base, dest)
  {
    assert !(dest <= tmp);
  }

  /** What is not at or below the trashed path is still in the share. */
  lemma TmpStays(share: Tree, put: Tree, tmp: Path, dest: Path)
    requires tmp in share && |tmp| == |dest|
    requires forall q :: IsFile(share, q) ==> Stays(share, q, put) || dest <= q
    requires IsFile(share, tmp)
    ensures tmp != dest ==> tmp in put && !(tmp <= dest) && Exists(put, tmp)
  {
    assert tmp <= dest ==> tmp == dest;
    assert dest <= tmp ==> tmp == dest;
  }

  lemma TmpIsAll(share: Tree, put: Tree, tmp: Path)
    requires Sound(share) && IsFile(share, tmp) && Exists(put, tmp)
    requires forall q :: q in put ==> q in share && put[q] == share[q]
    ensures tmp in put && put[tmp] == share[tmp]
  {
    FileIsAll(share, tmp);
  }

  lemma OnlyTmpMoves(base: Tree, share: Tree, put: Tree, renamed: Tree, event: Tree, tmp: Path, dest: Path)
    requires Discards(base, put, event, dest) && !Exists(base, tmp) && !Exists(put, dest)
    requires forall q :: q in put && !(tmp <= q) ==> q in renamed && renamed[q] == put[q]
    ensures Discards(base, renamed, event, dest)
    ensures IsFile(base, dest) ==> base[dest] in Contents(event)
  {
  }

  // --- Deleting ------------------------------------------------------------------------------------------------

  datatype DeleteFaults = DeleteFaults(resolve: bool, stat: bool, put: PutFaults, remove: bool)

  datatype Outcome = Applied | Skipped | Failed

  method ApplyDelete(share: Tree, event: Tree, p: Path, f: DeleteFaults)
    returns (r: Outcome, share': Tree, event': Tree, stored: Path)
    requires Sound(share) && Sound(event) && p != []
    ensures Sound(share') && Sound(event') && Grows(event, event') && Discards(share, share', event', p)
    ensures forall q :: q in share' ==> q in share && share'[q] == share[q]
    ensures OnlyAtOne(share, share', p, false) && (Free(event, p) ==> OnlyAtOne(event, event', p, false))
    ensures r.Applied? ==> !Exists(share', p)
    ensures r.Applied? && IsFile(share, p) ==> stored in event' && event'[stored] == share[p] && !Exists(event, stored)
    ensures r.Skipped? ==> share' == share && event' == event && Exists(share, p) && !IsFile(share, p)
    ensures r.Skipped? && !f.remove ==> !EmptyDirectory(share, p)
    ensures Exists(share, p) && !IsFile(share, p) && !EmptyDirectory(share, p) ==> share' == share && event' == event && !r.Applied?
    ensures (!f.resolve && !f.stat && !f.remove && NoPutFault(f.put) && !Blocked(share, p)
             && (IsFile(share, p) ==> CanStore(event, p))) ==> !r.Failed?
  {
    r, share', event', stored := Failed, share, event, p;
    if f.resolve || f.stat || Blocked(share, p) { return; }
    if !Exists(share, p) { return Applied, share, event, p; }
    if !IsFile(share, p) {
      if f.remove || !EmptyDirectory(share, p) { return Skipped, share, event, p; }
      assert share - {p} == Without(share, p);
      WithoutSound(share, p);
      return Applied, share - {p}, event, p;
    }
    var ok;
    ok, share', event', stored := Put(share, event, p, f.put);
    assert stored + p[|p|..] == stored;
    if !ok { return; }
    // Nothing is left for the final remove to take.
    if f.remove { return; }
    r := Applied;
  }

  // --- Conflict copies --------------------------------------------------------------------------------------------

  datatype ConflictFaults = ConflictFaults(resolve: bool, put: PutFaults, openRoot: bool, mkdir: Option<nat>, rename: bool, install: InstallFaults)

  /** The loser is remote: it is pulled to the conflict path, and the winner stays where it is. */
  method KeepLocalWinner(share: Tree, event: Tree, path: Path, copy: Path, loser: FileInfo, f: InstallFaults)
    returns (ok: bool, share': Tree, event': Tree)
    requires Sound(share) && Sound(event) && path != [] && copy != []
    ensures Sound(share') && Sound(event') && Grows(event, event') && Kept(share, share', event')
    ensures OnlyAtOne(share, share', copy, !ok) && (Free(event, copy) ==> OnlyAtOne(event, event', copy, false))
    ensures ok ==> Installed(loser, copy, share')
    ensures !(copy <= path) && IsFile(share, path) ==> Stays(share, path, share')
    ensures InstallReady(share, event, copy, loser, f) ==> ok
  {
    ok, share', event' := PullAndInstall(share, event, copy, loser, f);
    DiscardsKeeps(share, share', event', copy);
  }

  predicate NoPreserveFault(f: ConflictFaults) {
    !f.resolve && NoPutFault(f.put) && !f.openRoot && f.mkdir.None? && !f.rename
  }

  /** The local loser moves to the conflict path, after whatever is there has been trashed. */
  method PreserveLoser(share: Tree, event: Tree, path: Path, copy: Path, f: ConflictFaults)
    returns (preserved: bool, share': Tree, event': Tree)
    requires Sound(share) && Sound(event) && path != [] && copy != []
    ensures Sound(share') && Sound(event') && Grows(event, event') && Kept(share, share', event')
    ensures OnlyAt(share, share', {path, copy}, false) && (Free(event, copy) ==> OnlyAtOne(event, event', copy, false))
    ensures preserved ==> Apart(path, copy) && !Exists(share', path)
    ensures preserved && IsFile(share, path) ==> copy in share' && share'[copy] == share[path]
    ensures (NoPreserveFault(f) && IsFile(share, path) && Apart(path, copy) && !Blocked(share, copy)
             && (Exists(share, copy) ==> CanStore(event, copy))) ==> preserved
  {
    preserved, share', event' := false, share, event;
    if f.resolve { return; }
    var put;
    var stored;
    put, share', event', stored := Put(share, event, copy, f.put);
    DiscardsKeeps(share, share', event', copy);
    ghost var afterPut := share';
    RemovedOnlyAt(share, afterPut, path, copy);
    if !put || f.openRoot { return; }
    assert !Blocked(share, copy) ==> !Blocked(afterPut, copy);
    if !Blocked(afterPut, copy) { ParentNotBlocked(afterPut, copy); }
    var (made, withDirs) := MkdirAll(share', Parent(copy), f.mkdir);
    MkdirAllSound(share', Parent(copy), f.mkdir);
    share' := withDirs;
    ParentDirsOnly(afterPut, withDirs, copy);
    TwoPathsOnlyAt(share, afterPut, withDirs, path, copy);
    KeptByGrowth(share, afterPut, share', event');
    if !made || f.rename { return; }
    assert !Exists(share', copy) by { DirsLeaveFree(afterPut, share', copy); }
    var (moved, renamed) := Rename(share', path, copy);
    if !moved { return; }
    ghost var withParents := share';
    preserved, share' := true, renamed;
    RenameKeeps(withParents, share', path, copy);
    RenamedOnlyAtBoth(share, withParents, share', path, copy);
    KeptByContents(share, withParents, share', event');
    assert IsFile(share, path) ==> IsFile(afterPut, path) && IsFile(withParents, path);
  }

  /** The loser is local: it is renamed to the conflict path before the winner is pulled onto its own. */
  method KeepLocalLoser(share: Tree, event: Tree, path: Path, copy: Path, winner: FileInfo, f: ConflictFaults)
    returns (preserved: bool, ok: bool, share': Tree, event': Tree)
    requires Sound(share) && Sound(event) && path != [] && copy != []
    ensures Sound(share') && Sound(event') && Grows(event, event') && Kept(share, share', event')
    ensures ok ==> preserved && Installed(winner, path, share')
    ensures OnlyAt(share, share', {path, copy}, !ok)
    ensures Free(event, path) && Free(event, copy) && Apart(path, copy) ==> OnlyAt(event, event', {path, copy}, false)
    ensures preserved && IsFile(share, path) ==> copy in share' && share'[copy] == share[path]
    ensures preserved ==> Apart(path, copy)
    ensures (NoPreserveFault(f) && IsFile(share, path) && Apart(path, copy) && !Blocked(share, copy)
             && (Exists(share, copy) ==> CanStore(event, copy))) ==> preserved
    ensures LoserReady(share, event, path, copy, winner, f) ==> ok
  {
    ok := false;
    preserved, share', event' := PreserveLoser(share, event, path, copy, f);
    OnlyAtMore(share, share', {path, copy}, {path, copy}, false);
    EventAtBoth(event, event', path, copy);
    if !preserved { return; }
    ghost var s1, e1 := share', event';
    ok, share', event' := PullAndInstall(share', event', path, winner, f.install);
    DiscardsKeeps(s1, share', event', path);
    KeptThenKept(share, s1, e1, share', event');
    GrowsThenGrows(event, e1, event');
    assert IsFile(share, path) ==> IsFile(s1, copy);
    ThenAtFirst(share, s1, share', path, copy, !ok);
    if Free(event, path) && Free(event, copy) {
      FreeAfter(event, e1, copy, path);
      ThenAtFirst(event, e1, event', path, copy, false);
    }
    if LoserReady(share, event, path, copy, winner, f) { InstallStaysReady(share, s1, e1, path, copy, winner, f); }
  }

  /** No call fails and nothing is in the way of either half. */
  ghost predicate LoserWants(share: Tree, path: Path, copy: Path, winner: FileInfo, f: ConflictFaults)
    requires path != [] && copy != []
  {
    && NoPreserveFault(f) && IsFile(share, path) && Apart(path, copy) && ValidPath(copy) && !Blocked(share, copy)
    && WinnerWants(share, path, winner, f.install)
  }

  ghost predicate WinnerWants(share: Tree, path: Path, winner: FileInfo, f: InstallFaults)
    requires path != []
  {
    match winner.ftype
    case File => NoInstallFault(f, winner, path) && !Exists(share, Parent(path) + [TempName(f)])
    case Dir => !f.resolve && f.mkdir.None?
    case Symlink => false
  }

  ghost predicate LoserReady(share: Tree, event: Tree, path: Path, copy: Path, winner: FileInfo, f: ConflictFaults)
    requires path != [] && copy != []
  {
    LoserWants(share, path, copy, winner, f) && (Exists(share, copy) ==> CanStore(event, copy))
  }

  /** Once the loser has moved away, nothing is in the winner's way either. */
  lemma InstallStaysReady(share: Tree, s1: Tree, event: Tree, path: Path, copy: Path, winner: FileInfo, f: ConflictFaults)
    requires path != [] && copy != [] && Sound(share) && OnlyAt(share, s1, {path, copy}, false) && !Exists(s1, path)
    requires IsFile(share, path) && Apart(path, copy) && ValidPath(copy)
    requires WinnerWants(share, path, winner, f.install)
    ensures InstallReady(s1, event, path, winner, f.install)
  {
    UnderTwo(path, copy);
    forall i | 0 <= i < |path| ensures !IsFile(s1, path[..i]) {
      assert !Blocked(share, path);
      assert path[..i] <= path && (copy <= path[..i] ==> copy <= path);
    }
    if winner.ftype.File? {
      var tmp := Parent(path) + [TempName(f.install)];
      TempClear(path, copy, tmp);
      forall q | q in s1 && tmp <= q ensures q in share {
        PrefixesNest(path, tmp, q);
        PrefixesNest(copy, tmp, q);
        assert (q <= path ==> tmp <= path) && (q <= copy ==> tmp <= copy);
      }
    }
  }

  lemma UnderTwo(path: Path, copy: Path)
    ensures forall q :: Under(q, {path, copy}) <==> path <= q || copy <= q
    ensures forall q :: Above(q, {path, copy}) <==> q <= path || q <= copy
  {
    assert path in {path, copy} && copy in {path, copy};
  }

  /** What is above one of two paths beside each other is above the other. */
  lemma BesideNests(a: Path, t: Path, k: Path)
    requires t != [] && k != [] && Parent(t) == Parent(k)
    ensures a <= t ==> a == t || a <= k
    ensures t <= a ==> |t| <= |a| && a[|t| - 1] == t[|t| - 1]
  {
    if a <= t && |a| < |t| { assert a == Parent(t)[..|a|] == k[..|a|]; }
    if t <= a { assert a[..|t|] == t; }
  }

  lemma TempClear(path: Path, copy: Path, tmp: Path)
    requires path != [] && tmp != [] && |tmp| == |path| && Parent(tmp) == Parent(path) && IsTempName(tmp[|tmp| - 1]) && tmp != path
    requires Apart(path, copy) && ValidPath(copy)
    ensures Apart(tmp, path) && Apart(tmp, copy)
  {
    BesideNests(copy, tmp, path);
    BesideNests(path, tmp, path);
    BesideNests(tmp, path, tmp);
  }

  lemma EventAtBoth(event: Tree, event': Tree, path: Path, copy: Path)
    ensures OnlyAtOne(event, event', copy, false) ==> OnlyAt(event, event', {path, copy}, false)
  {
    if OnlyAtOne(event, event', copy, false) {
      OneIsOnlyAt(event, event', copy, false);
      OnlyAtMore(event, event', {copy}, {path, copy}, false);
    }
  }

  lemma ThenAtFirst(t0: Tree, t1: Tree, t2: Tree, path: Path, copy: Path, staged: bool)
    requires OnlyAt(t0, t1, {path, copy}, false) && OnlyAtOne(t1, t2, path, staged)
    ensures OnlyAt(t0, t2, {path, copy}, staged)
  {
    OneIsOnlyAt(t1, t2, path, staged);
    OnlyAtThen(t0, t1, t2, {path, copy}, {path}, false, staged);
    assert {path, copy} + {path} == {path, copy};
  }

  lemma FreeAfter(t: Tree, t': Tree, p: Path, q: Path)
    requires OnlyAtOne(t, t', p, false) && Free(t, q) && Apart(p, q)
    ensures Free(t', q)
  {
    OneIsOnlyAt(t, t', p, false);
    NearIsSame(t, t', {p}, false, q);
  }

  /** At, above and below a path apart from all the others, nothing is different. */
  lemma NearIsSame(t: Tree, t': Tree, ts: set<Path>, staged: bool, p: Path)
    requires OnlyAt(t, t', ts, staged) && (staged ==> ValidPath(p)) && forall k :: k in ts ==> Apart(k, p)
    ensures forall q :: p <= q ==> (q in t <==> q in t') && (q in t ==> t'[q] == t[q])
    ensures Blocked(t, p) <==> Blocked(t', p)
  {
    forall q | p <= q ensures !Under(q, ts) && !Above(q, ts) && (staged ==> !IsStaging(q, ts)) {
      forall k | k in ts ensures !(k <= q) && !(q <= k) && (staged && q != [] && k != [] && IsTempName(q[|q| - 1]) ==> Parent(k) != Parent(q)) {
        PrefixesNest(k, p, q);
        assert q <= k ==> p <= k;
        if q != [] && k != [] && Parent(k) == Parent(q) { BesideNests(p, q, k); }
      }
    }
    forall i | 0 <= i < |p| ensures IsFile(t, p[..i]) <==> IsFile(t', p[..i]) {
      var q := p[..i];
      assert q <= p;
      forall k | k in ts ensures !(k <= q) { assert k <= q ==> k <= p; }
      if staged && q != [] { assert q[|q| - 1] == p[|q| - 1]; }
    }
  }

  lemma RemovedOnlyAt(share: Tree, put: Tree, path: Path, copy: Path)
    requires forall q :: q in put ==> q in share && put[q] == share[q]
    requires forall q :: q in share && !(copy <= q) ==> q in put
    ensures OnlyAtOne(share, put, copy, false) && OnlyAt(share, put, {path, copy}, false)
  {
    OneIsOnlyAt(share, put, copy, false);
    OnlyAtMore(share, put, {copy}, {path, copy}, false);
  }

  lemma TwoPathsOnlyAt(share: Tree, put: Tree, r: Tree, path: Path, copy: Path)
    requires OnlyAtOne(share, put, copy, false) && OnlyAtOne(put, r, copy, false)
    ensures OnlyAt(share, r, {path, copy}, false)
  {
    OneThenOne(share, put, r, copy, false);
    OneIsOnlyAt(share, r, copy, false);
    OnlyAtMore(share, r, {copy}, {path, copy}, false);
  }

  lemma RenamedOnlyAtBoth(share: Tree, t: Tree, renamed: Tree, path: Path, copy: Path)
    requires OnlyAt(share, t, {path, copy}, false) && Sound(t) && !Exists(t, copy) && Rename(t, path, copy) == (true, renamed)
    ensures OnlyAt(share, renamed, {path, copy}, false) && !Exists(renamed, path)
  {
    RenameMoves(t, path, copy);
    var ts := {path, copy};
    MovedOnlyAt(t, renamed, path, copy);
    OnlyAtThen(share, t, renamed, ts, ts, false, false);
    assert ts + ts == ts;
  }

  lemma MovedOnlyAt(t: Tree, renamed: Tree, path: Path, copy: Path)
    requires forall q :: q in t && !(path <= q) ==> q in renamed && renamed[q] == t[q]
    requires forall q :: q in renamed ==> (q in t && renamed[q] == t[q]) || copy <= q
    ensures OnlyAt(t, renamed, {path, copy}, false)
  {
    forall q ensures (path <= q || copy <= q) ==> Under(q, {path, copy}) {
      assert path in {path, copy} && copy in {path, copy};
    }
  }

  lemma KeptByContents(s0: Tree, s1: Tree, s2: Tree, e: Tree)
    requires Kept(s0, s1, e) && Contents(s1) <= Contents(s2)
    ensures Kept(s0, s2, e)
  {
  }

  lemma KeptByGrowth(s0: Tree, s1: Tree, s2: Tree, e: Tree)
    requires Kept(s0, s1, e) && Grows(s1, s2)
    ensures Kept(s0, s2, e)
  {
    ContentsGrow(s1, s2);
  }

  lemma DirsLeaveFree(t: Tree, r: Tree, p: Path)
    requires p != [] && !Exists(t, p)
    requires forall q :: q in r && q !in t ==> q <= Parent(p)
    ensures !Exists(r, p)
  {
  }

  /** A rename onto a free path keeps every content. */
  lemma RenameKeeps(t: Tree, renamed: Tree, path: Path, copy: Path)
    requires Sound(t) && !Exists(t, copy) && Rename(t, path, copy) == (true, renamed)
    ensures Contents(t) <= Contents(renamed) && Apart(path, copy) && Sound(renamed)
    ensures IsFile(t, path) ==> copy in renamed && renamed[copy] == t[path]
  {
    RenameMoves(t, path, copy);
    assert !(copy <= path) by {
      var q :| q in t && path <= q;
      assert copy <= path ==> copy <= q;
    }
    forall n | n in Contents(t) ensures n in Contents(renamed) {
      var p :| p in t && !t[p].Directory? && t[p] == n;
      InContents(renamed, if path <= p then copy + p[|path|..] else p);
    }
    assert copy + path[|path|..] == copy;
  }

  // --- A whole plan ------------------------------------------------------------------------------------------------

  /** The path components of a relative path. */
  function Components(relpath: string, i: nat): (c: Path)
    requires i <= |relpath|
    ensures c != []
    decreases |relpath| - i
  {
    if i == |relpath| then [relpath[..i]]
    else if relpath[i] == '/' then [relpath[..i]] + Components(relpath[i + 1..], 0)
    else Components(relpath, i + 1)
  }

  function Join(p: Path): string
    requires p != []
  {
    if |p| == 1 then p[0] else p[0] + "/" + Join(p[1..])
  }

  /** The components joined by slashes are the path, and none has a slash in it. */
  lemma {:induction false} ComponentsJoin(relpath: string, i: nat)
    requires i <= |relpath| && forall k :: 0 <= k < i ==> relpath[k] != '/'
    ensures Join(Components(relpath, i)) == relpath
    ensures forall k :: 0 <= k < |Components(relpath, i)| ==> '/' !in Components(relpath, i)[k]
    decreases |relpath| - i
  {
    if i == |relpath| {
      assert relpath[..i] == relpath;
    } else if relpath[i] == '/' {
      var rest := Components(relpath[i + 1..], 0);
      ComponentsJoin(relpath[i + 1..], 0);
      assert Components(relpath, i)[1..] == rest && Components(relpath, i)[0] == relpath[..i];
      assert relpath == relpath[..i] + "/" + relpath[i + 1..];
    } else {
      ComponentsJoin(relpath, i + 1);
    }
  }

  datatype Faults = Faults(install: InstallFaults, del: DeleteFaults, conflict: ConflictFaults)

  /** The action changes no file: it only records a version, or flags one. */
  predicate IndexOnly(a: Action) {
    match a.kind
    case NoAction => true
    case Delete => false
    case ConflictCopy => !(a.source.Local? && a.conflictSource.Remote?) && !(a.source.Remote? && a.conflictSource.Local?)
    case _ => !a.source.Remote?
  }

  /** The paths an action may change, or moves a file away from. */
  function Targets(a: Action): (ts: set<Path>)
    ensures [] !in ts
  {
    if IndexOnly(a) then {}
    else if a.kind.ConflictCopy? then {Components(a.relpath, 0), Components(a.conflictRelPath, 0)}
    else {Components(a.relpath, 0)}
  }

  /**
   What a fully applied action leaves on disk: a delete leaves nothing, a pull the
   content it names, and a conflict copy both sides, the one that was already here
   with the content it had.
   */
  ghost predicate Done(a: Action, share: Tree, share': Tree) {
    var path, copy := Components(a.relpath, 0), Components(a.conflictRelPath, 0);
    if IndexOnly(a) then true
    else match a.kind
      case Delete => !Exists(share', path)
      case ConflictCopy =>
        if a.source.Local? then
          && Installed(a.conflictInfo, copy, share')
          && (!(copy <= path) && IsFile(share, path) ==> Stays(share, path, share'))
        else
          && Installed(a.resolved, path, share')
          && (IsFile(share, path) ==> copy in share' && share'[copy] == share[path])
      case _ => Installed(a.resolved, path, share')
  }

  /** No call fails, and nothing is in the way. */
  ghost predicate Wants(a: Action, share: Tree, f: Faults) {
    var path, copy := Components(a.relpath, 0), Components(a.conflictRelPath, 0);
    if IndexOnly(a) then !a.kind.ConflictCopy?
    else match a.kind
      case Delete =>
        && !f.del.resolve && !f.del.stat && !f.del.remove && NoPutFault(f.del.put) && !Blocked(share, path)
        && (Exists(share, path) ==> IsFile(share, path) || EmptyDirectory(share, path))
      case ConflictCopy =>
        if a.source.Local? then InstallWants(share, copy, a.conflictInfo, f.install)
        else LoserWants(share, path, copy, a.resolved, f.conflict)
      case _ => InstallWants(share, path, a.resolved, f.install)
  }

  /** The event has room for what the action discards. */
  ghost predicate HasRoom(a: Action, share: Tree, event: Tree) {
    forall p :: p in Targets(a) && Exists(share, p) ==> CanStore(event, p)
  }

  /**
   One action: a fully applied one leaves what it decided, one that nothing makes
   fail is applied, and nothing changes away from its paths.
   */
  method ApplyAction(share: Tree, event: Tree, a: Action, f: Faults) returns (r: Outcome, share': Tree, event': Tree)
    requires Sound(share) && Sound(event)
    ensures Sound(share') && Sound(event') && Grows(event, event') && Kept(share, share', event')
    ensures r.Applied? ==> Done(a, share, share')
    ensures Wants(a, share, f) && HasRoom(a, share, event) ==> r.Applied?
    ensures OnlyAt(share, share', Targets(a), !r.Applied?)
    ensures EventClear(event, a) ==> OnlyAt(event, event', Targets(a), false)
    ensures r.Skipped? ==> a.kind.Delete? && share' == share && event' == event
    ensures IndexOnly(a) ==> share' == share && event' == event && (r.Applied? <==> !a.kind.ConflictCopy?)
  {
    var path := Components(a.relpath, 0);
    r, share', event' := Applied, share, event;
    if a.kind.Delete? {
      r, share', event' := DeleteAt(share, event, path, f.del);
    } else if a.kind.ConflictCopy? {
      var copy := Components(a.conflictRelPath, 0);
      var ok := false;
      if a.source.Local? && a.conflictSource.Remote? {
        ok, share', event' := KeepLocalWinner(share, event, path, copy, a.conflictInfo, f.install);
        AtCopyOnly(share, share', path, copy, !ok);
        AtCopyOnly(event, event', path, copy, false);
      } else if a.source.Remote? && a.conflictSource.Local? {
        var preserved;
        preserved, ok, share', event' := KeepLocalLoser(share, event, path, copy, a.resolved, f.conflict);
      }
      r := if ok then Applied else Failed;
    } else if !a.kind.NoAction? && a.source.Remote? {
      r, share', event' := PullAt(share, event, path, a.resolved, f.install);
    }
  }

  /** The event holds nothing on the paths of the action, which are apart. */
  ghost predicate EventClear(event: Tree, a: Action) {
    && (forall p :: p in Targets(a) ==> Free(event, p))
    && (a.kind.ConflictCopy? ==> Apart(Components(a.relpath, 0), Components(a.conflictRelPath, 0)))
  }

  method DeleteAt(share: Tree, event: Tree, path: Path, f: DeleteFaults) returns (r: Outcome, share': Tree, event': Tree)
    requires Sound(share) && Sound(event) && path != []
    ensures Sound(share') && Sound(event') && Grows(event, event') && Kept(share, share', event')
    ensures OnlyAt(share, share', {path}, false) && OnlyAt(share, share', {path}, true)
    ensures Free(event, path) ==> OnlyAt(event, event', {path}, false)
    ensures r.Applied? ==> !Exists(share', path)
    ensures r.Skipped? ==> share' == share && event' == event
    ensures (!f.resolve && !f.stat && !f.remove && NoPutFault(f.put) && !Blocked(share, path)
             && (Exists(share, path) ==> (IsFile(share, path) && CanStore(event, path)) || EmptyDirectory(share, path))) ==> r.Applied?
  {
    var stored;
    r, share', event', stored := ApplyDelete(share, event, path, f);
    DiscardsKeeps(share, share', event', path);
    OneIsOnlyAt(share, share', path, false);
    OnlyAtMore(share, share', {path}, {path}, false);
    if Free(event, path) { OneIsOnlyAt(event, event', path, false); }
  }

  method PullAt(share: Tree, event: Tree, path: Path, info: FileInfo, f: InstallFaults) returns (r: Outcome, share': Tree, event': Tree)
    requires Sound(share) && Sound(event) && path != []
    ensures Sound(share') && Sound(event') && Grows(event, event') && Kept(share, share', event')
    ensures OnlyAt(share, share', {path}, !r.Applied?)
    ensures Free(event, path) ==> OnlyAt(event, event', {path}, false)
    ensures !r.Skipped? && (r.Applied? ==> Installed(info, path, share'))
    ensures InstallReady(share, event, path, info, f) ==> r.Applied?
  {
    var ok;
    ok, share', event' := PullAndInstall(share, event, path, info, f);
    DiscardsKeeps(share, share', event', path);
    OneIsOnlyAt(share, share', path, !ok);
    if Free(event, path) { OneIsOnlyAt(event, event', path, false); }
    r := if ok then Applied else Failed;
  }

  lemma AtCopyOnly(t: Tree, t': Tree, path: Path, copy: Path, staged: bool)
    ensures OnlyAtOne(t, t', copy, staged) ==> OnlyAt(t, t', {path, copy}, staged)
  {
    if OnlyAtOne(t, t', copy, staged) {
      OneIsOnlyAt(t, t', copy, staged);
      OnlyAtMore(t, t', {copy}, {path, copy}, staged);
    }
  }

  // --- Every action of the plan --------------------------------------------------------------------

  ghost function PlanTargets(plan: seq<Action>): (ts: set<Path>)
    ensures [] !in ts
    ensures forall i :: 0 <= i < |plan| ==> Targets(plan[i]) <= ts
  {
    if plan == [] then {} else PlanTargets(plan[..|plan| - 1]) + Targets(plan[|plan| - 1])
  }

  /** The plan's paths are valid and none is, or lies above, another. */
  ghost predicate PathsApart(plan: seq<Action>) {
    && (forall i, p :: 0 <= i < |plan| && p in Targets(plan[i]) ==> ValidPath(p))
    && (forall i, j, p, q :: 0 <= i < |plan| && 0 <= j < |plan| && i != j && p in Targets(plan[i]) && q in Targets(plan[j]) ==> Apart(p, q))
    && (forall i :: 0 <= i < |plan| && |Targets(plan[i])| > 0 && plan[i].kind.ConflictCopy? ==>
          Apart(Components(plan[i].relpath, 0), Components(plan[i].conflictRelPath, 0)))
  }

  /** The targets of one action keep clear of all these paths. */
  ghost predicate ClearOf(a: Action, ts: set<Path>) {
    && (forall p :: p in Targets(a) ==> ValidPath(p))
    && forall p, t :: p in Targets(a) && t in ts ==> Apart(t, p)
  }

  lemma {:induction false} EarlierTargetsApart(plan: seq<Action>, i: nat, n: nat)
    requires PathsApart(plan) && n <= i < |plan|
    ensures ClearOf(plan[i], PlanTargets(plan[..n]))
    decreases n
  {
    if n > 0 {
      EarlierTargetsApart(plan, i, n - 1);
      assert plan[..n][..n - 1] == plan[..n - 1] && plan[..n][n - 1] == plan[n - 1];
    }
  }

  /** What an action left stays while others work on paths apart from its own. */
  lemma DoneStays(a: Action, share: Tree, s1: Tree, s2: Tree, ts: set<Path>)
    requires ClearOf(a, ts) && OnlyAt(s1, s2, ts, true) && Done(a, share, s1)
    ensures Done(a, share, s2)
  {
    forall p | p in Targets(a) ensures SameFrom(s1, s2, p) { NearIsSame(s1, s2, ts, true, p); }
    TargetsOf(a);
  }

  ghost predicate SameFrom(t: Tree, t': Tree, p: Path) {
    && (forall q :: p <= q ==> (q in t <==> q in t') && (q in t ==> t'[q] == t[q]))
    && (Blocked(t, p) <==> Blocked(t', p))
  }

  lemma TargetsOf(a: Action)
    ensures !IndexOnly(a) ==> Components(a.relpath, 0) in Targets(a)
    ensures !IndexOnly(a) && a.kind.ConflictCopy? ==> Components(a.conflictRelPath, 0) in Targets(a)
  {
  }

  /** An action finds on its paths what was there before the plan. */
  lemma DoneFromStart(a: Action, share: Tree, s1: Tree, s2: Tree, ts: set<Path>)
    requires ClearOf(a, ts) && OnlyAt(share, s1, ts, true) && Done(a, s1, s2)
    ensures Done(a, share, s2)
  {
    forall p | p in Targets(a) ensures SameFrom(share, s1, p) { NearIsSame(share, s1, ts, true, p); }
    TargetsOf(a);
  }

  lemma TempApart(p: Path, ts: set<Path>, name: string)
    requires p != [] && IsTempName(name) && forall t :: t in ts ==> Apart(t, p) && ValidPath(t)
    ensures forall t :: t in ts ==> Apart(t, Parent(p) + [name])
  {
    var tmp := Parent(p) + [name];
    forall t | t in ts ensures Apart(t, tmp) {
      BesideNests(t, tmp, p);
      assert tmp[|tmp| - 1] == name;
    }
  }

  /** What an install needs is there as long as others keep to their paths. */
  lemma InstallWantsStays(share: Tree, s1: Tree, dest: Path, info: FileInfo, f: InstallFaults, ts: set<Path>)
    requires dest != [] && InstallWants(share, dest, info, f) && OnlyAt(share, s1, ts, false)
    requires forall t :: t in ts ==> Apart(t, dest) && ValidPath(t)
    ensures InstallWants(s1, dest, info, f)
  {
    NearIsSame(share, s1, ts, false, dest);
    TempStaysFree(share, s1, dest, f, ts);
  }

  lemma TempStaysFree(share: Tree, s1: Tree, dest: Path, f: InstallFaults, ts: set<Path>)
    requires dest != [] && OnlyAt(share, s1, ts, false) && forall t :: t in ts ==> Apart(t, dest) && ValidPath(t)
    ensures Exists(share, Parent(dest) + [TempName(f)]) <==> Exists(s1, Parent(dest) + [TempName(f)])
  {
    TempApart(dest, ts, TempName(f));
    NearIsSame(share, s1, ts, false, Parent(dest) + [TempName(f)]);
  }

  lemma LoserWantsStays(share: Tree, s1: Tree, path: Path, copy: Path, winner: FileInfo, f: ConflictFaults, ts: set<Path>)
    requires path != [] && copy != [] && LoserWants(share, path, copy, winner, f) && OnlyAt(share, s1, ts, false)
    requires forall t :: t in ts ==> Apart(t, path) && Apart(t, copy) && ValidPath(t)
    ensures LoserWants(s1, path, copy, winner, f)
  {
    NearIsSame(share, s1, ts, false, path);
    NearIsSame(share, s1, ts, false, copy);
    TempStaysFree(share, s1, path, f.install, ts);
  }

  lemma WantsStays(a: Action, share: Tree, s1: Tree, f: Faults, ts: set<Path>)
    requires Wants(a, share, f) && OnlyAt(share, s1, ts, false) && ClearOf(a, ts) && forall t :: t in ts ==> ValidPath(t)
    ensures Wants(a, s1, f)
  {
    var path, copy := Components(a.relpath, 0), Components(a.conflictRelPath, 0);
    TargetsOf(a);
    if IndexOnly(a) {
    } else if a.kind.Delete? {
      NearIsSame(share, s1, ts, false, path);
    } else if a.kind.ConflictCopy? {
      if a.source.Local? {
        InstallWantsStays(share, s1, copy, a.conflictInfo, f.install, ts);
      } else {
        LoserWantsStays(share, s1, path, copy, a.resolved, f.conflict, ts);
      }
    } else {
      InstallWantsStays(share, s1, path, a.resolved, f.install, ts);
    }
  }

  lemma RoomStays(a: Action, event: Tree, e1: Tree, share: Tree, ts: set<Path>)
    requires OnlyAt(event, e1, ts, false) && ClearOf(a, ts) && forall p :: p in Targets(a) ==> Free(event, p)
    ensures HasRoom(a, share, e1) && forall p :: p in Targets(a) ==> Free(e1, p)
  {
    forall p | p in Targets(a) ensures Free(e1, p) && CanStore(e1, p) {
      NearIsSame(event, e1, ts, false, p);
      FirstCandidate(e1, p);
    }
  }

  lemma FirstCandidate(event: Tree, p: Path)
    requires p != [] && Free(event, p)
    ensures CanStore(event, p)
  {
    assert Candidate(p, 1) == p;
  }

  /** Every applied action among the first `n` has left what it decided. */
  ghost predicate AllDone(plan: seq<Action>, outcomes: seq<Outcome>, share: Tree, share': Tree, n: nat)
    requires n <= |plan| && n <= |outcomes|
  {
    forall k :: 0 <= k < n && outcomes[k].Applied? ==> Done(plan[k], share, share')
  }

  lemma {:induction false} PlanTargetsValid(plan: seq<Action>, n: nat)
    requires PathsApart(plan) && n <= |plan|
    ensures forall t :: t in PlanTargets(plan[..n]) ==> ValidPath(t)
  {
    if n > 0 {
      PlanTargetsValid(plan, n - 1);
      assert plan[..n][..n - 1] == plan[..n - 1] && plan[..n][n - 1] == plan[n - 1];
    }
  }

  lemma TargetsSoFar(plan: seq<Action>, i: nat)
    requires i < |plan|
    ensures PlanTargets(plan[..i + 1]) == PlanTargets(plan[..i]) + Targets(plan[i])
  {
    assert plan[..i + 1][..i] == plan[..i] && plan[..i + 1][i] == plan[i];
  }

  /** Nothing makes an action fail, as far as the state before the plan tells, and the event holds nothing on the plan's paths. */
  ghost predicate NothingFails(plan: seq<Action>, faults: seq<Faults>, share: Tree, event: Tree)
    requires |faults| == |plan|
  {
    forall i :: 0 <= i < |plan| ==> Wants(plan[i], share, faults[i]) && forall p :: p in Targets(plan[i]) ==> Free(event, p)
  }

  /** So when an action's turn comes, nothing makes it fail. */
  lemma StillNothingFails(plan: seq<Action>, faults: seq<Faults>, share: Tree, event: Tree, s1: Tree, e1: Tree, i: nat)
    requires PathsApart(plan) && |faults| == |plan| && NothingFails(plan, faults, share, event) && i < |plan|
    requires OnlyAt(share, s1, PlanTargets(plan[..i]), false) && OnlyAt(event, e1, PlanTargets(plan[..i]), false)
    ensures Wants(plan[i], s1, faults[i]) && HasRoom(plan[i], s1, e1) && EventClear(e1, plan[i])
  {
    EarlierTargetsApart(plan, i, i);
    PlanTargetsValid(plan, i);
    WantsStays(plan[i], share, s1, faults[i], PlanTargets(plan[..i]));
    RoomStays(plan[i], event, e1, s1, PlanTargets(plan[..i]));
    TargetsOf(plan[i]);
    assert Wants(plan[i], share, faults[i]);
  }

  /**
   Any plan, with any faults: every file content in the share before is in the
   share or in the pass's trash event after, the event only grows, and nothing
   changes away from the plan's paths. If those are apart, every action reported
   as applied has left what it decided, and all are if nothing makes them fail.
   */
  method ApplyPlan(share: Tree, event: Tree, plan: seq<Action>, faults: seq<Faults>)
    returns (outcomes: seq<Outcome>, share': Tree, event': Tree)
    requires Sound(share) && Sound(event) && |faults| == |plan|
    ensures Sound(share') && Sound(event') && |outcomes| == |plan|
    ensures Kept(share, share', event')
    ensures Grows(event, event')
    ensures OnlyAt(share, share', PlanTargets(plan), true)
    ensures PathsApart(plan) ==> AllDone(plan, outcomes, share, share', |plan|)
    ensures PathsApart(plan) && NothingFails(plan, faults, share, event) ==> forall i :: 0 <= i < |plan| ==> outcomes[i].Applied?
  {
    outcomes, share', event' := [], share, event;
    for i := 0 to |plan|
      invariant Sound(share') && Sound(event') && Grows(event, event') && Kept(share, share', event')
      invariant |outcomes| == i && OnlyAt(share, share', PlanTargets(plan[..i]), true)
      invariant PathsApart(plan) ==> AllDone(plan, outcomes, share, share', i)
      invariant PathsApart(plan) && NothingFails(plan, faults, share, event) ==> Flawless(plan, outcomes, share, event, share', event', i)
    {
      ghost var s1, e1, before := share', event', outcomes;
      var r;
      r, share', event' := ApplyAction(share', event', plan[i], faults[i]);
      outcomes := outcomes + [r];
      KeptThenKept(share, s1, e1, share', event');
      GrowsThenGrows(event, e1, event');
      if PathsApart(plan) {
        OneMoreDone(plan, before, r, share, s1, share', i);
        if NothingFails(plan, faults, share, event) {
          StillNothingFails(plan, faults, share, event, s1, e1, i);
          FlawlessStep(plan, before, r, share, event, s1, e1, share', event', i);
        }
      }
      OnlyAtNext(plan, share, s1, share', i, true, !r.Applied?);
    }
    assert plan[..|plan|] == plan;
  }

  /** Every action so far was applied, and nothing but the plan's paths so far has changed. */
  ghost predicate Flawless(plan: seq<Action>, outcomes: seq<Outcome>, share: Tree, event: Tree, s1: Tree, e1: Tree, i: nat)
    requires i <= |plan|
  {
    && (forall k :: 0 <= k < |outcomes| ==> outcomes[k].Applied?)
    && OnlyAt(share, s1, PlanTargets(plan[..i]), false) && OnlyAt(event, e1, PlanTargets(plan[..i]), false)
  }

  lemma FlawlessStep(plan: seq<Action>, outcomes: seq<Outcome>, r: Outcome, share: Tree, event: Tree, s1: Tree, e1: Tree, s2: Tree, e2: Tree, i: nat)
    requires i < |plan| && Flawless(plan, outcomes, share, event, s1, e1, i) && r.Applied?
    requires OnlyAt(s1, s2, Targets(plan[i]), false) && OnlyAt(e1, e2, Targets(plan[i]), false)
    ensures Flawless(plan, outcomes + [r], share, event, s2, e2, i + 1)
  {
    OnlyAtNext(plan, share, s1, s2, i, false, false);
    OnlyAtNext(plan, event, e1, e2, i, false, false);
  }

  lemma OnlyAtNext(plan: seq<Action>, t: Tree, t1: Tree, t2: Tree, i: nat, staged: bool, staged': bool)
    requires i < |plan| && OnlyAt(t, t1, PlanTargets(plan[..i]), staged) && OnlyAt(t1, t2, Targets(plan[i]), staged')
    ensures OnlyAt(t, t2, PlanTargets(plan[..i + 1]), staged || staged')
  {
    TargetsSoFar(plan, i);
    OnlyAtThen(t, t1, t2, PlanTargets(plan[..i]), Targets(plan[i]), staged, staged');
  }

  lemma OneMoreDone(plan: seq<Action>, outcomes: seq<Outcome>, r: Outcome, share: Tree, s1: Tree, s2: Tree, i: nat)
    requires PathsApart(plan) && i < |plan| && |outcomes| == i && AllDone(plan, outcomes, share, s1, i)
    requires OnlyAt(share, s1, PlanTargets(plan[..i]), true) && OnlyAt(s1, s2, Targets(plan[i]), !r.Applied?)
    requires r.Applied? ==> Done(plan[i], s1, s2)
    ensures AllDone(plan, outcomes + [r], share, s2, i + 1)
  {
    OnlyAtMore(s1, s2, Targets(plan[i]), Targets(plan[i]), !r.Applied?);
    forall k | 0 <= k < i && outcomes[k].Applied? ensures Done(plan[k], share, s2) {
      DoneStays(plan[k], share, s1, s2, Targets(plan[i]));
    }
    if r.Applied? {
      EarlierTargetsApart(plan, i, i);
      DoneFromStart(plan[i], share, s1, s2, PlanTargets(plan[..i]));
    }
  }
}

/**
 Several workers applying one plan at once. Each system call of a worker is one
 step, so every interleaving is a run. A worker first clears the path it is about
 to write, by moving what is there into the trash event, and writes it later. A
 file is lost when another worker moves a losing file there in between, and the
 last part says exactly which plans make that possible.
 */
module Workers {
  import opened Reconcile
  import opened Disk
  import opened Apply

  type Worker = nat

  /** What a worker has done with the path it is busy with. */
  datatype Claim =
    | Copied(path: Path, node: Node)   // its file has been copied to the event, and is still here
    | Cleared(path: Path)              // nothing was there any more when the worker last looked

  datatype World = World(share: Tree, event: Tree, claims: map<Worker, Claim>, temps: map<Worker, Path>,
                         preserved: set<Worker>)

  datatype Step =
    | FindAbsent(w: Worker, p: Path)
    | Trash(w: Worker, p: Path, stored: Path)
    | CopyOut(w: Worker, p: Path, stored: Path)
    | RemoveSource(w: Worker)
    | RemoveCleared(w: Worker)                   // the last call of a delete
    | Release(w: Worker)
    | MakeDirs(w: Worker, p: Path, fault: Option<nat>)
    | RemoveDir(w: Worker, p: Path)
    | Stage(w: Worker, tmp: Path, content: Node)
    | Unlink(w: Worker)
    | Install(w: Worker)                         // the staged file onto the cleared path
    | Preserve(w: Worker, src: Path)             // a losing file onto the cleared path

  /** No other worker is in the middle of moving something into the event: the event has a lock. */
  predicate EventFree(x: World, w: Worker) { forall v :: v in x.claims && v != w ==> x.claims[v].Cleared? }

  /** `unlink(2)` or `rmdir(2)`, which leaves a directory that is not empty. */
  function Removed(t: Tree, p: Path): Tree { if IsFile(t, p) || EmptyDirectory(t, p) then t - {p} else t }

  predicate Enabled(x: World, s: Step) {
    match s
    case FindAbsent(_, p) => !Exists(x.share, p)
    case Trash(w, p, stored) => Exists(x.share, p) && !Blocked(x.share, p) && Free(x.event, stored) && EventFree(x, w)
    case CopyOut(w, p, stored) => IsFile(x.share, p) && Free(x.event, stored) && EventFree(x, w)
    case RemoveSource(w) => w in x.claims && x.claims[w].Copied?
    case RemoveCleared(w) => w in x.claims && x.claims[w].Cleared?
    case Release(w) => true
    case MakeDirs(_, p, _) => true
    case RemoveDir(_, p) => EmptyDirectory(x.share, p)
    case Stage(w, tmp, content) => Free(x.share, tmp) && !content.Directory? && w !in x.temps
    case Unlink(w) => w in x.temps
    case Install(w) => w in x.temps && w in x.claims && x.claims[w].Cleared?
    case Preserve(w, src) => w in x.claims && x.claims[w].Cleared? && w !in x.temps
  }

  function Next(x: World, s: Step): World
    requires Enabled(x, s)
  {
    match s
    case FindAbsent(w, p) => x.(claims := x.claims[w := Cleared(p)])
    case Trash(w, p, stored) =>
      x.(share := Without(x.share, p), event := Grafted(x.event, x.share, p, stored), claims := x.claims[w := Cleared(p)])
    case CopyOut(w, p, stored) =>
      x.(event := x.event[stored := x.share[p]], claims := x.claims[w := Copied(p, x.share[p])])
    case RemoveSource(w) =>
      var p := x.claims[w].path;
      x.(share := Removed(x.share, p), claims := x.claims[w := Cleared(p)])
    case RemoveCleared(w) =>
      x.(share := Removed(x.share, x.claims[w].path))
    case Release(w) => x.(claims := x.claims - {w})
    case MakeDirs(_, p, fault) => x.(share := MkdirAll(x.share, p, fault).1)
    case RemoveDir(_, p) => x.(share := x.share - {p})
    case Stage(w, tmp, content) => x.(share := x.share[tmp := content], temps := x.temps[w := tmp])
    case Unlink(w) => x.(share := x.share - {x.temps[w]}, temps := x.temps - {w})
    case Install(w) =>
      var (ok, share) := Rename(x.share, x.temps[w], x.claims[w].path);
      if ok then x.(share := share, temps := x.temps - {w}, claims := x.claims - {w}) else x
    case Preserve(w, src) =>
      var (ok, share) := Rename(x.share, src, x.claims[w].path);
      if ok then x.(share := share, claims := x.claims - {w}, preserved := x.preserved + {w}) else x
  }

  ghost predicate IsRun(xs: seq<World>, steps: seq<Step>) {
    |xs| == |steps| + 1 && forall i :: 0 <= i < |steps| ==> StepAt(xs, steps, i)
  }

  ghost predicate StepAt(xs: seq<World>, steps: seq<Step>, i: nat)
    requires i < |steps| < |xs|
  {
    Enabled(xs[i], steps[i]) && xs[i + 1] == Next(xs[i], steps[i])
  }

  // --- What has to be kept ---------------------------------------------------------------------

  predicate IsTemp(x: World, p: Path) { exists w :: w in x.temps && x.temps[w] == p }

  /** The content is in the share, other than in a staging file, or in the event. */
  ghost predicate Safe(x: World, n: Node) {
    || (exists p :: IsFile(x.share, p) && !IsTemp(x, p) && x.share[p] == n)
    || n in Contents(x.event)
  }

  ghost predicate AllSafe(share: Tree, x: World) {
    forall p :: IsFile(share, p) ==> Safe(x, share[p])
  }

  /**
   Safe, and out of reach of every worker: the content is in the event, or in a
   file that no worker has a claim on and that is no staging file nor below one.
   */
  ghost predicate Secure(x: World, n: Node) {
    n in Contents(x.event) || exists p :: IsFile(x.share, p) && x.share[p] == n && OutOfReach(x, p)
  }

  ghost predicate OutOfReach(x: World, p: Path) {
    && (forall v :: v in x.claims ==> x.claims[v].path != p)
    && (forall v :: v in x.temps ==> !(x.temps[v] <= p))
  }

  lemma SecureIsSafe(x: World, n: Node)
    requires Secure(x, n)
    ensures Safe(x, n)
  {
    if n !in Contents(x.event) {
      var p :| IsFile(x.share, p) && x.share[p] == n && OutOfReach(x, p);
      assert !IsTemp(x, p);
    }
  }

  /**
   Only a losing file on the move can get into reach: the path it goes to must
   not be one that another worker has a claim on, or lie above one, and must keep
   clear of staging files. Every other step is harmless.
   */
  predicate Harmless(x: World, s: Step)
    requires Enabled(x, s)
  {
    s.Preserve? ==>
      var dst := x.claims[s.w].path;
      && (forall v :: v in x.claims && v != s.w ==> !(dst <= x.claims[v].path))
      && (forall v :: v in x.temps ==> Apart(dst, x.temps[v]))
  }

  // --- Every harmless step keeps everything ----------------------------------------------------------

  lemma MinusSound(t: Tree, p: Path)
    requires Sound(t)
    ensures Sound(t - {p})
  {
    forall q | q in t - {p} ensures !Blocked(t - {p}, q) { assert !Blocked(t, q); }
  }

  lemma StepKeepsSound(x: World, s: Step)
    requires Sound(x.share) && Enabled(x, s)
    ensures Sound(Next(x, s).share)
  {
    match s
    case Trash(_, p, _) => WithoutSound(x.share, p);
    case RemoveSource(w) => MinusSound(x.share, x.claims[w].path);
    case RemoveCleared(w) => MinusSound(x.share, x.claims[w].path);
    case RemoveDir(_, p) => MinusSound(x.share, p);
    case Unlink(w) => MinusSound(x.share, x.temps[w]);
    case MakeDirs(_, p, fault) => MkdirAllSound(x.share, p, fault);
    case Stage(_, tmp, content) => AddedSound(x.share, tmp, content);
    case Install(w) => RenameKeepsOthers(x.share, x.temps[w], x.claims[w].path);
    case Preserve(w, src) => RenameKeepsOthers(x.share, src, x.claims[w].path);
    case _ =>
  }

  /** The event only grows, so what is in it stays secure. */
  lemma EventKeeps(x: World, s: Step)
    requires Enabled(x, s)
    ensures Grows(x.event, Next(x, s).event)
  {
    if s.Trash? { GraftedAt(x.event, x.share, s.p, s.stored); }
  }

  /** A file out of reach reaches the event when its path is cleared, and stays out of reach otherwise. */
  lemma ClearKeeps(x: World, s: Step, p: Path)
    requires (s.FindAbsent? || s.Trash? || s.CopyOut?) && Enabled(x, s) && IsFile(x.share, p) && OutOfReach(x, p)
    ensures Secure(Next(x, s), x.share[p])
  {
    var x' := Next(x, s);
    if s.Trash? && s.p <= p {
      GraftedAt(x.event, x.share, s.p, s.stored);
      InContents(x'.event, s.stored + p[|s.p|..]);
    } else if s.CopyOut? && s.p == p {
      InContents(x'.event, s.stored);
    } else {
      assert p in x'.share && OutOfReach(x', p);
    }
  }

  /** No call that removes something, makes directories or stages a file reaches it. */
  lemma OtherCallsKeep(x: World, s: Step, p: Path)
    requires s.RemoveSource? || s.RemoveCleared? || s.Release? || s.MakeDirs? || s.RemoveDir? || s.Stage? || s.Unlink?
    requires Enabled(x, s) && IsFile(x.share, p) && OutOfReach(x, p)
    ensures Secure(Next(x, s), x.share[p])
  {
    var x' := Next(x, s);
    assert p in x'.share && x'.share[p] == x.share[p];
    assert OutOfReach(x', p) by {
      if s.Stage? { assert !(s.tmp <= p); }
    }
  }

  lemma InstallKeeps(x: World, s: Step, p: Path)
    requires Sound(x.share) && s.Install? && Enabled(x, s) && IsFile(x.share, p) && OutOfReach(x, p)
    ensures Secure(Next(x, s), x.share[p])
  {
    var x' := Next(x, s);
    RenameKeepsOthers(x.share, x.temps[s.w], x.claims[s.w].path);
    assert p in x'.share && x'.share[p] == x.share[p] && OutOfReach(x', p);
  }

  lemma PreserveKeeps(x: World, s: Step, p: Path)
    requires Sound(x.share) && s.Preserve? && Enabled(x, s) && Harmless(x, s) && IsFile(x.share, p) && OutOfReach(x, p)
    ensures Secure(Next(x, s), x.share[p])
  {
    var x', dst := Next(x, s), x.claims[s.w].path;
    RenameKeepsOthers(x.share, s.src, dst);
    if x'.share != x.share && s.src <= p {
      var q := dst + p[|s.src|..];
      assert q in x'.share && x'.share[q] == x.share[p];
      assert OutOfReach(x', q) by {
        forall v | v in x'.temps ensures !(x'.temps[v] <= q) { PrefixesNest(dst, x.temps[v], q); }
        forall v | v in x'.claims ensures x'.claims[v].path != q { assert dst <= q; }
      }
    } else {
      assert p in x'.share && x'.share[p] == x.share[p] && OutOfReach(x', p);
    }
  }

  lemma StepKeeps(x: World, s: Step, n: Node)
    requires Sound(x.share) && Secure(x, n) && Enabled(x, s) && Harmless(x, s)
    ensures Sound(Next(x, s).share) && Secure(Next(x, s), n)
  {
    StepKeepsSound(x, s);
    EventKeeps(x, s);
    ContentsGrow(x.event, Next(x, s).event);
    if n !in Contents(x.event) {
      var p :| IsFile(x.share, p) && x.share[p] == n && OutOfReach(x, p);
      if s.FindAbsent? || s.Trash? || s.CopyOut? {
        ClearKeeps(x, s, p);
      } else if s.Install? {
        InstallKeeps(x, s, p);
      } else if s.Preserve? {
        PreserveKeeps(x, s, p);
      } else {
        OtherCallsKeep(x, s, p);
      }
    }
  }

  ghost predicate Starts(x: World, share: Tree) {
    x.share == share && Sound(share) && x.claims == map[] && x.temps == map[] && x.preserved == {}
  }

  ghost predicate HarmlessUpTo(xs: seq<World>, steps: seq<Step>, n: nat)
    requires n <= |steps| < |xs|
  {
    forall i :: 0 <= i < n ==> HarmlessAt(xs, steps, i)
  }

  ghost predicate HarmlessAt(xs: seq<World>, steps: seq<Step>, i: nat)
    requires i < |steps| < |xs|
  {
    Enabled(xs[i], steps[i]) ==> Harmless(xs[i], steps[i])
  }

  lemma {:induction false} RunKeeps(share: Tree, xs: seq<World>, steps: seq<Step>, i: nat, p: Path)
    requires IsRun(xs, steps) && Starts(xs[0], share) && i < |xs| && HarmlessUpTo(xs, steps, i) && IsFile(share, p)
    ensures Sound(xs[i].share) && Secure(xs[i], share[p])
  {
    if i > 0 {
      assert StepAt(xs, steps, i - 1) && HarmlessAt(xs, steps, i - 1);
      RunKeeps(share, xs, steps, i - 1, p);
      StepKeeps(xs[i - 1], steps[i - 1], share[p]);
    } else {
      assert OutOfReach(xs[0], p);
    }
  }

  /**
   In every interleaving of harmless steps, wherever it stops, each file content
   the share had at the start is in the share or in the event.
   */
  lemma WorkersLoseNothing(share: Tree, xs: seq<World>, steps: seq<Step>, i: nat)
    requires IsRun(xs, steps) && Starts(xs[0], share) && i < |xs| && HarmlessUpTo(xs, steps, i)
    ensures AllSafe(share, xs[i])
  {
    forall p | IsFile(share, p) ensures Safe(xs[i], share[p]) {
      RunKeeps(share, xs, steps, i, p);
      SecureIsSafe(xs[i], share[p]);
    }
  }

  // --- Plans -------------------------------------------------------------------------------------------

  /** What a plan entry does with files. A remote loser is pulled to its conflict path. */
  datatype Entry =
    | MakeDir(path: Path)
    | Delete(path: Path)
    | Pull(path: Path)
    | LocalLoser(path: Path, copy: Path, dirWins: bool)   // renamed to its copy before the winner is pulled or made

  type Plan = map<Worker, Entry>

  predicate Installs(e: Entry) { e.Pull? || (e.LocalLoser? && !e.dirWins) }

  /** The paths the entry clears, to write or to delete. */
  predicate Clears(e: Entry, p: Path) {
    match e
    case MakeDir(_) => false
    case LocalLoser(path, copy, dirWins) => p == copy || (p == path && !dirWins)
    case _ => p == e.path
  }

  /** Paths are valid, a copy lies beside what it is a copy of, and no file loses twice. */
  ghost predicate WellFormed(es: Plan) {
    && (forall w :: w in es ==> ValidPath(es[w].path))
    && (forall w :: w in es && es[w].LocalLoser? ==>
          ValidPath(es[w].copy) && es[w].copy != es[w].path && Parent(es[w].copy) == Parent(es[w].path))
    && (forall v, w :: v in es && w in es && v != w && es[v].LocalLoser? && es[w].LocalLoser? ==> es[v].path != es[w].path)
  }

  /** When the entry clears `p`: a conflict path before the losing file moves, the path pulled to once the pull is staged. */
  predicate MayClear(e: Entry, x: World, w: Worker, p: Path) {
    match e
    case MakeDir(_) => false
    case Delete(path) => p == path
    case Pull(path) => p == path && w in x.temps
    case LocalLoser(path, copy, dirWins) =>
      if w in x.preserved then p == path && !dirWins && w in x.temps else p == copy
  }

  /** The winner is pulled after the losing file has moved, and nothing is cleared before the pull is staged. */
  predicate MayStage(e: Entry, x: World, w: Worker, tmp: Path) {
    Installs(e) && IsStagingFor(e, tmp) && w !in x.claims && w !in x.temps && (e.LocalLoser? ==> w in x.preserved)
  }

  /** The worker makes the calls of its own entry, on that entry's paths and in the program's order. */
  ghost predicate Follows(es: Plan, x: World, s: Step)
    requires Enabled(x, s)
  {
    s.w in es &&
    var e := es[s.w];
    match s
    case FindAbsent(w, p) => MayClear(e, x, w, p)
    case Trash(w, p, _) => MayClear(e, x, w, p)
    case CopyOut(w, p, _) => MayClear(e, x, w, p)
    case RemoveCleared(_) => e.Delete?
    case RemoveDir(_, p) => e.Delete? && p == e.path
    case MakeDirs(_, p, _) => p != [] && !e.Delete? && (p == e.path || (e.path != [] && p == Parent(e.path)))
    case Stage(w, tmp, _) => MayStage(e, x, w, tmp)
    case Install(w) => Installs(e) && x.claims[w].path == e.path
    case Preserve(w, src) => e.LocalLoser? && w !in x.preserved && src == e.path && x.claims[w].path == e.copy
    case _ => true
  }

  predicate IsStagingFor(e: Entry, tmp: Path) {
    tmp != [] && e.path != [] && IsTempName(tmp[|tmp| - 1]) && Parent(tmp) == Parent(e.path)
  }

  ghost predicate FollowsAt(es: Plan, xs: seq<World>, steps: seq<Step>, i: nat)
    requires i < |steps| < |xs|
  {
    Enabled(xs[i], steps[i]) ==> Follows(es, xs[i], steps[i])
  }

  ghost predicate RunOf(es: Plan, share: Tree, xs: seq<World>, steps: seq<Step>) {
    IsRun(xs, steps) && Starts(xs[0], share) && forall i :: 0 <= i < |steps| ==> FollowsAt(es, xs, steps, i)
  }

  /** Whatever the share holds and however the workers interleave, no file content is lost. */
  ghost predicate NeverLoses(es: Plan) {
    forall share, xs, steps, i: nat :: RunOf(es, share, xs, steps) && i < |xs| ==> AllSafe(share, xs[i])
  }

  /** No conflict path a losing file is moved to is, or lies above, a path another entry clears. */
  ghost predicate CopiesKeepClear(es: Plan) {
    forall w, v, b :: w in es && es[w].LocalLoser? && v in es && v != w && Clears(es[v], b) ==> !(es[w].copy <= b)
  }

  // --- Plans whose conflict paths keep clear lose nothing --------------------------------------------------

  ghost predicate WithinPlan(es: Plan, x: World) {
    && (forall v :: v in x.claims ==> v in es && Clears(es[v], x.claims[v].path))
    && (forall v :: v in x.temps ==> v in es && Installs(es[v]) && IsStagingFor(es[v], x.temps[v]))
  }

  lemma StepKeepsWithin(es: Plan, x: World, s: Step)
    requires WithinPlan(es, x) && Enabled(x, s) && Follows(es, x, s)
    ensures WithinPlan(es, Next(x, s))
  {
  }

  /** A conflict path and a staging file of another entry are apart. */
  lemma CopyClearOfStaging(es: Plan, w: Worker, v: Worker, tmp: Path)
    requires WellFormed(es) && CopiesKeepClear(es) && w in es && es[w].LocalLoser? && v in es && v != w
    requires Installs(es[v]) && IsStagingFor(es[v], tmp)
    ensures Apart(es[w].copy, tmp)
  {
    var a, b := es[w].copy, es[v].path;
    assert !(a <= b) by { assert Clears(es[v], b); }
    AboveOrBelow(a, tmp);
    assert a <= Parent(b) ==> a <= b;
  }

  lemma AboveOrBelow(a: Path, tmp: Path)
    requires tmp != []
    ensures a <= tmp ==> a <= Parent(tmp) || tmp <= a
    ensures tmp <= a ==> |tmp| <= |a| && a[|tmp| - 1] == tmp[|tmp| - 1]
  {
    if tmp <= a { assert a[..|tmp|] == tmp; }
  }

  lemma FollowingIsHarmless(es: Plan, x: World, s: Step)
    requires WellFormed(es) && CopiesKeepClear(es) && WithinPlan(es, x) && Enabled(x, s) && Follows(es, x, s)
    ensures Harmless(x, s)
  {
    if s.Preserve? {
      forall v | v in x.temps ensures Apart(x.claims[s.w].path, x.temps[v]) { CopyClearOfStaging(es, s.w, v, x.temps[v]); }
    }
  }

  lemma {:induction false} AllWithin(es: Plan, share: Tree, xs: seq<World>, steps: seq<Step>, i: nat)
    requires WellFormed(es) && CopiesKeepClear(es) && RunOf(es, share, xs, steps) && i < |xs|
    ensures WithinPlan(es, xs[i])
  {
    if i > 0 {
      AllWithin(es, share, xs, steps, i - 1);
      assert StepAt(xs, steps, i - 1) && FollowsAt(es, xs, steps, i - 1);
      StepKeepsWithin(es, xs[i - 1], steps[i - 1]);
    }
  }

  lemma AllHarmless(es: Plan, share: Tree, xs: seq<World>, steps: seq<Step>, i: nat)
    requires WellFormed(es) && CopiesKeepClear(es) && RunOf(es, share, xs, steps) && i < |steps|
    ensures HarmlessAt(xs, steps, i)
  {
    AllWithin(es, share, xs, steps, i);
    assert StepAt(xs, steps, i) && FollowsAt(es, xs, steps, i);
    FollowingIsHarmless(es, xs[i], steps[i]);
  }

  lemma ClearPlansLoseNothing(es: Plan)
    requires WellFormed(es) && CopiesKeepClear(es)
    ensures NeverLoses(es)
  {
    forall share, xs, steps, i: nat | RunOf(es, share, xs, steps) && i < |xs| ensures AllSafe(share, xs[i]) {
      forall k | 0 <= k < i ensures HarmlessAt(xs, steps, k) { AllHarmless(es, share, xs, steps, k); }
      WorkersLoseNothing(share, xs, steps, i);
    }
  }

  // --- And every other plan can lose a file ------------------------------------------------------------------

  const MINE := Regular([1])
  const OTHER := Regular([2])

  ghost predicate OnlyOther(t: Tree) { forall q :: q in t ==> t[q] == OTHER }

  /** The file at `p` is the one to be lost. */
  ghost predicate OneMine(t: Tree, p: Path) {
    p in t && t[p] == MINE && forall q :: q in t && q != p ==> t[q] == OTHER
  }

  /** Nothing but files, all in the directory `dir`. */
  ghost predicate Together(t: Tree, dir: Path) {
    forall q :: q in t ==> q != [] && Parent(q) == dir && !t[q].Directory?
  }

  /** Paths beside each other are apart. */
  lemma Beside(p: Path, q: Path)
    requires p != [] && q != [] && p != q && Parent(p) == Parent(q)
    ensures |p| == |q| && Apart(p, q)
  {
    assert p == Parent(p) + [p[|p| - 1]] && q == Parent(q) + [q[|q| - 1]];
  }

  /** What hangs below two paths that are apart is apart. */
  lemma BelowApart(p: Path, q: Path, p': Path, q': Path)
    requires Apart(p, q) && p <= p' && q <= q'
    ensures Apart(p', q')
  {
    PrefixesNest(p, q, q');
    PrefixesNest(p, q, p');
    assert p' <= q' ==> p <= q';
    assert q' <= p' ==> q <= p';
  }

  /** A tree of files that are apart is sound. */
  lemma ApartIsSound(t: Tree)
    requires forall p, q :: p in t && q in t && p != q ==> Apart(p, q)
    ensures Sound(t)
  {
    forall q | q in t ensures !Blocked(t, q) {
      forall i | 0 <= i < |q| ensures !IsFile(t, q[..i]) {
        assert q[..i] <= q && q[..i] != q;
      }
    }
  }

  lemma NotBlockedBy(t: Tree, p: Path)
    requires forall q :: q in t ==> q == p || Apart(q, p)
    ensures !Blocked(t, p)
  {
    forall i | 0 <= i < |p| ensures !IsFile(t, p[..i]) {
      assert p[..i] <= p && p[..i] != p;
    }
  }

  lemma TogetherIsFlat(t: Tree, dir: Path, dst: Path)
    requires Together(t, dir) && dst != [] && Parent(dst) == dir
    ensures Sound(t) && !Blocked(t, dst) && (Exists(t, dst) <==> dst in t)
    ensures forall q :: q in t && q != dst ==> Apart(q, dst)
  {
    forall p, q | p in t && q in t && p != q ensures Apart(p, q) { Beside(p, q); }
    ApartIsSound(t);
    forall q | q in t && q != dst ensures Apart(q, dst) { Beside(q, dst); }
    NotBlockedBy(t, dst);
  }

  function Moved(t: Tree, src: Path, dst: Path): Tree
    requires src in t
  {
    (t - {src, dst})[dst := t[src]]
  }

  /** A file moves within its directory, onto a free path or onto another file. */
  lemma MoveBeside(t: Tree, dir: Path, src: Path, dst: Path)
    requires Together(t, dir) && src in t && dst != [] && Parent(dst) == dir && dst != src
    ensures Rename(t, src, dst) == (true, Moved(t, src, dst)) && Together(Moved(t, src, dst), dir)
  {
    TogetherIsFlat(t, dir, dst);
    TogetherIsFlat(t, dir, src);
    Beside(src, dst);
    assert src in t && src <= src;
    GraftAlone(t, src, dst);
  }

  lemma GraftAlone(t: Tree, src: Path, dst: Path)
    requires src in t && forall q :: q in t ==> (src <= q <==> q == src) && (dst <= q <==> q == dst)
    ensures Grafted(Without(Without(t, src), dst), t, src, dst) == Moved(t, src, dst)
  {
    assert Without(Without(t, src), dst) == t - {src, dst};
    assert src + dst[|dst|..] == src;
    forall q ensures q in Landing(t, src, dst) <==> q == dst {
      if dst <= q { assert q == dst + q[|dst|..] && src <= src + q[|dst|..]; }
    }
  }

  /** A directory with two files in it moves to a free path. */
  lemma MoveTwo(src: Path, r1: Path, r2: Path, dst: Path)
    requires Apart(src, dst) && |r1| == |r2| && r1 != r2
    ensures var t: Tree := map[src + r1 := MINE, src + r2 := OTHER];
            Rename(t, src, dst) == (true, map[dst + r1 := MINE, dst + r2 := OTHER]) && !Exists(t, dst)
  {
    var t: Tree := map[src + r1 := MINE, src + r2 := OTHER];
    BelowApart(src, dst, src + r1, dst);
    BelowApart(src, dst, src + r2, dst);
    NotBlockedBy(t, dst);
    assert src + r1 in t && src <= src + r1 && src <= src + r2;
    assert Without(Without(t, src), dst) == map[];
    GraftTwo(src, r1, r2, dst);
  }

  lemma GraftTwo(src: Path, r1: Path, r2: Path, dst: Path)
    requires r1 != r2
    ensures Grafted(map[], map[src + r1 := MINE, src + r2 := OTHER], src, dst) == map[dst + r1 := MINE, dst + r2 := OTHER]
  {
    var t: Tree := map[src + r1 := MINE, src + r2 := OTHER];
    assert (src + r1)[|src|..] == r1 && (src + r2)[|src|..] == r2;
    assert (dst + r1)[|dst|..] == r1 && (dst + r2)[|dst|..] == r2;
    forall q ensures q in Landing(t, src, dst) <==> q == dst + r1 || q == dst + r2 {
      if dst <= q {
        assert q == dst + q[|dst|..] && (src + q[|dst|..])[|src|..] == q[|dst|..];
      }
    }
  }

  // Runs, call by call.

  /** A call the worker of an entry makes, and what comes of it. */
  ghost predicate Turns(es: Plan, x: World, s: Step, y: World) {
    Enabled(x, s) && Follows(es, x, s) && Next(x, s) == y
  }

  lemma FindTurn(es: Plan, x: World, w: Worker, p: Path)
    requires !Exists(x.share, p) && w in es && MayClear(es[w], x, w, p)
    ensures Turns(es, x, FindAbsent(w, p), x.(claims := x.claims[w := Cleared(p)]))
  {
  }

  lemma TrashTurn(es: Plan, x: World, w: Worker, p: Path)
    requires Exists(x.share, p) && !Blocked(x.share, p) && x.event == map[] && EventFree(x, w) && w in es && MayClear(es[w], x, w, p)
    requires forall q :: q in x.share && p <= q ==> x.share[q] == OTHER
    ensures var event := Grafted(map[], x.share, p, p);
            && OnlyOther(event)
            && Turns(es, x, Trash(w, p, p), x.(share := Without(x.share, p), event := event, claims := x.claims[w := Cleared(p)]))
  {
    GraftedAt(map[], x.share, p, p);
    forall q | q in Grafted(map[], x.share, p, p) ensures Grafted(map[], x.share, p, p)[q] == OTHER {
      assert p <= p + q[|p|..];
    }
  }

  lemma StageTurn(es: Plan, x: World, w: Worker, tmp: Path)
    requires Free(x.share, tmp) && w in es && MayStage(es[w], x, w, tmp)
    ensures Turns(es, x, Stage(w, tmp, OTHER), x.(share := x.share[tmp := OTHER], temps := x.temps[w := tmp]))
  {
  }

  lemma PreserveTurn(es: Plan, x: World, w: Worker, t: Tree)
    requires w in es && es[w].LocalLoser? && w in x.claims && x.claims[w] == Cleared(es[w].copy)
    requires w !in x.temps && w !in x.preserved && Rename(x.share, es[w].path, es[w].copy) == (true, t)
    ensures Turns(es, x, Preserve(w, es[w].path), x.(share := t, claims := x.claims - {w}, preserved := x.preserved + {w}))
  {
  }

  lemma InstallTurn(es: Plan, x: World, w: Worker, t: Tree)
    requires w in es && Installs(es[w]) && w in x.claims && x.claims[w] == Cleared(es[w].path) && w in x.temps
    requires Rename(x.share, x.temps[w], es[w].path) == (true, t)
    ensures Turns(es, x, Install(w), x.(share := t, temps := x.temps - {w}, claims := x.claims - {w}))
  {
  }

  lemma RemoveTurn(es: Plan, x: World, w: Worker, p: Path)
    requires w in es && es[w].Delete? && w in x.claims && x.claims[w] == Cleared(p) && IsFile(x.share, p)
    ensures Turns(es, x, RemoveCleared(w), x.(share := x.share - {p}))
  {
  }

  function AtStart(share: Tree): World { World(share, map[], map[], map[], {}) }

  lemma Start(es: Plan, share: Tree) returns (xs: seq<World>, steps: seq<Step>)
    requires Sound(share)
    ensures RunOf(es, share, xs, steps) && xs[|xs| - 1] == AtStart(share)
  {
    xs, steps := [AtStart(share)], [];
  }

  /** A run of the plan goes on with any call its worker makes. */
  lemma GoOn(es: Plan, share: Tree, xs: seq<World>, steps: seq<Step>, s: Step, y: World)
    returns (xs': seq<World>, steps': seq<Step>)
    requires RunOf(es, share, xs, steps) && Turns(es, xs[|xs| - 1], s, y)
    ensures RunOf(es, share, xs', steps') && xs'[|xs'| - 1] == y
  {
    xs', steps' := xs + [y], steps + [s];
    forall i | 0 <= i < |steps'| ensures StepAt(xs', steps', i) && FollowsAt(es, xs', steps', i) {
      if i < |steps| { assert StepAt(xs, steps, i) && FollowsAt(es, xs, steps, i); }
    }
  }

  /** A worker moves its losing file to the conflict path it has cleared. */
  lemma PreserveNow(es: Plan, share: Tree, xs: seq<World>, steps: seq<Step>, w: Worker, t: Tree)
    returns (xs': seq<World>, steps': seq<Step>, y: World)
    requires RunOf(es, share, xs, steps) && w in es && es[w].LocalLoser?
    requires var x := xs[|xs| - 1];
             && w in x.claims && x.claims[w] == Cleared(es[w].copy) && w !in x.temps && w !in x.preserved
             && Rename(x.share, es[w].path, es[w].copy) == (true, t)
    ensures RunOf(es, share, xs', steps') && xs'[|xs'| - 1] == y
    ensures var x := xs[|xs| - 1];
            y == x.(share := t, claims := x.claims - {w}, preserved := x.preserved + {w})
  {
    var x := xs[|xs| - 1];
    PreserveTurn(es, x, w, t);
    y := x.(share := t, claims := x.claims - {w}, preserved := x.preserved + {w});
    xs', steps' := GoOn(es, share, xs, steps, Preserve(w, es[w].path), y);
  }

  /** The same of a worker that still has to look, and finds the conflict path free. */
  lemma LookAndPreserve(es: Plan, share: Tree, xs: seq<World>, steps: seq<Step>, w: Worker, t: Tree)
    returns (xs': seq<World>, steps': seq<Step>, y: World)
    requires RunOf(es, share, xs, steps) && w in es && es[w].LocalLoser?
    requires var x := xs[|xs| - 1];
             && w !in x.temps && w !in x.preserved && !Exists(x.share, es[w].copy)
             && Rename(x.share, es[w].path, es[w].copy) == (true, t)
    ensures RunOf(es, share, xs', steps') && xs'[|xs'| - 1] == y
    ensures var x := xs[|xs| - 1];
            && y.share == t && y.event == x.event && y.temps == x.temps && y.preserved == x.preserved + {w}
            && y.claims == x.claims - {w}
  {
    var x, a := xs[|xs| - 1], es[w].copy;
    FindTurn(es, x, w, a);
    var z := x.(claims := x.claims[w := Cleared(a)]);
    xs', steps' := GoOn(es, share, xs, steps, FindAbsent(w, a), z);
    xs', steps', y := PreserveNow(es, share, xs', steps', w, t);
    assert z.claims - {w} == x.claims - {w};
  }

  lemma LosingRun(es: Plan, share: Tree, xs: seq<World>, steps: seq<Step>, p: Path)
    requires RunOf(es, share, xs, steps) && IsFile(share, p) && share[p] == MINE
    requires var x := xs[|xs| - 1]; OnlyOther(x.share) && OnlyOther(x.event)
    ensures !NeverLoses(es)
  {
    var x := xs[|xs| - 1];
    assert !Safe(x, MINE);
    assert !AllSafe(share, x);
  }

  // A delete.

  /**
   The final remove of a delete takes the file that has just arrived, at the
   conflict path or below it.
   */
  lemma DeleteCanLose(es: Plan, w: Worker, v: Worker)
    requires WellFormed(es) && v != w && w in es && es[w].LocalLoser? && v in es && es[v].Delete? && es[w].copy <= es[v].path
    ensures !NeverLoses(es)
  {
    var b := es[v].path;
    Beside(es[w].path, es[w].copy);
    var p := ArrivesAt(es[w], b);
    var share: Tree := map[p := MINE, b := OTHER];
    TrashAlone(p, b);
    var xs, steps := Start(es, share);
    TrashTurn(es, xs[|xs| - 1], v, b);
    var x := AtStart(share).(share := map[p := MINE], event := Grafted(map[], share, b, b), claims := map[v := Cleared(b)]);
    xs, steps := GoOn(es, share, xs, steps, Trash(v, b, b), x);
    xs, steps, x := LookAndPreserve(es, share, xs, steps, w, map[b := MINE]);
    RemoveTurn(es, x, v, b);
    xs, steps := GoOn(es, share, xs, steps, RemoveCleared(v), x.(share := x.share - {b}));
    LosingRun(es, share, xs, steps, p);
  }

  lemma ArrivesAt(e: Entry, b: Path) returns (p: Path)
    requires e.LocalLoser? && Apart(e.path, e.copy) && e.copy <= b
    ensures Apart(p, b) && !Exists(map[p := MINE], e.copy) && Rename(map[p := MINE], e.path, e.copy) == (true, map[b := MINE])
  {
    var rest := b[|e.copy|..];
    assert e.copy + rest == b;
    p := e.path + rest;
    BelowApart(e.path, e.copy, p, b);
    MoveOne(e.path, rest, e.copy);
  }

  lemma TrashAlone(p: Path, b: Path)
    requires Apart(p, b)
    ensures var t: Tree := map[p := MINE, b := OTHER];
            Sound(t) && Exists(t, b) && !Blocked(t, b) && Without(t, b) == map[p := MINE]
  {
    var t: Tree := map[p := MINE, b := OTHER];
    ApartIsSound(t);
    NotBlockedBy(t, b);
    assert b in t && b <= b;
  }

  lemma MoveOne(src: Path, rest: Path, dst: Path)
    requires Apart(src, dst)
    ensures Rename(map[src + rest := MINE], src, dst) == (true, map[dst + rest := MINE]) && !Exists(map[src + rest := MINE], dst)
  {
    var t: Tree := map[src + rest := MINE];
    BelowApart(src, dst, src + rest, dst);
    NotBlockedBy(t, dst);
    assert src + rest in t && src <= src + rest;
    assert Without(Without(t, src), dst) == map[];
    GraftOne(src, rest, dst);
  }

  lemma GraftOne(src: Path, rest: Path, dst: Path)
    ensures Grafted(map[], map[src + rest := MINE], src, dst) == map[dst + rest := MINE]
  {
    assert (src + rest)[|src|..] == rest && (dst + rest)[|dst|..] == rest;
    forall q ensures q in Landing(map[src + rest := MINE], src, dst) <==> q == dst + rest {
      if dst <= q {
        assert q == dst + q[|dst|..] && (src + q[|dst|..])[|src|..] == q[|dst|..];
      }
    }
  }

  // A file pulled to the conflict path itself.

  function StagingBeside(b: Path): Path
    requires b != []
  {
    Parent(b) + [".syncat.tmp.0"]
  }

  lemma StagingIsBeside(b: Path)
    requires ValidPath(b)
    ensures var tmp := StagingBeside(b);
            && tmp != [] && Parent(tmp) == Parent(b) && |tmp| == |b| && IsTempName(tmp[|tmp| - 1])
            && forall q :: ValidPath(q) ==> q != tmp
  {
    var tmp := StagingBeside(b);
    assert IsTempName(tmp[|tmp| - 1]);
  }

  /** Worker `v` is about to pull a file to `b`, where worker `w` is about to move its losing file. */
  ghost predicate AboutToReplace(es: Plan, x: World, w: Worker, v: Worker, b: Path) {
    && v != w && w in es && es[w].LocalLoser? && es[w].copy == b && v in es && Installs(es[v]) && es[v].path == b
    && x.claims == map[] && x.temps == map[] && w !in x.preserved && (es[v].LocalLoser? ==> v in x.preserved)
    && OnlyOther(x.event) && HoldsMine(x.share, es[w].path, b)
  }

  /** Valid files beside `b`, the one to be lost at `src`, and none at `b`. */
  ghost predicate HoldsMine(t: Tree, src: Path, b: Path) {
    b != [] && Together(t, Parent(b)) && b !in t && OneMine(t, src) && forall q :: q in t ==> ValidPath(q)
  }

  lemma StagedAndMoved(t: Tree, src: Path, b: Path, tmp: Path)
    requires HoldsMine(t, src, b) && tmp !in t && tmp != b && tmp != [] && Parent(tmp) == Parent(b)
    ensures var t1 := t[tmp := OTHER];
            var t2 := Moved(t1, src, b);
            && Free(t, tmp) && !Exists(t1, b)
            && Rename(t1, src, b) == (true, t2) && tmp in t2
            && Rename(t2, tmp, b) == (true, Moved(t2, tmp, b)) && OnlyOther(Moved(t2, tmp, b))
  {
    var t1 := t[tmp := OTHER];
    TogetherIsFlat(t, Parent(b), tmp);
    TogetherIsFlat(t1, Parent(b), b);
    MoveBeside(t1, Parent(b), src, b);
    MoveBeside(Moved(t1, src, b), Parent(b), tmp, b);
  }

  /** Staged, found free by both, moved there, replaced. */
  lemma ReplacesWhatArrived(es: Plan, share: Tree, xs: seq<World>, steps: seq<Step>, w: Worker, v: Worker, b: Path, p: Path)
    requires WellFormed(es) && RunOf(es, share, xs, steps) && IsFile(share, p) && share[p] == MINE
    requires AboutToReplace(es, xs[|xs| - 1], w, v, b)
    ensures !NeverLoses(es)
  {
    var x, src, tmp := xs[|xs| - 1], es[w].path, StagingBeside(b);
    StagingIsBeside(b);
    StagedAndMoved(x.share, src, b, tmp);
    var t1 := x.share[tmp := OTHER];
    var t2 := Moved(t1, src, b);
    var xs1, steps1, x2 := StageAndLook(es, share, xs, steps, v, b, tmp);
    var x3;
    xs1, steps1, x3 := LookAndPreserve(es, share, xs1, steps1, w, t2);
    InstallAndLose(es, share, xs1, steps1, v, Moved(t2, tmp, b), p);
  }

  lemma StageAndLook(es: Plan, share: Tree, xs: seq<World>, steps: seq<Step>, v: Worker, b: Path, tmp: Path)
    returns (xs': seq<World>, steps': seq<Step>, y: World)
    requires RunOf(es, share, xs, steps) && v in es && Installs(es[v]) && es[v].path == b && IsStagingFor(es[v], tmp)
    requires var x := xs[|xs| - 1];
             && x.claims == map[] && x.temps == map[] && (es[v].LocalLoser? ==> v in x.preserved)
             && Free(x.share, tmp) && !Exists(x.share[tmp := OTHER], b)
    ensures RunOf(es, share, xs', steps') && xs'[|xs'| - 1] == y
    ensures var x := xs[|xs| - 1];
            y == x.(share := x.share[tmp := OTHER], claims := map[v := Cleared(b)], temps := map[v := tmp])
  {
    var x := xs[|xs| - 1];
    StageTurn(es, x, v, tmp);
    var z := x.(share := x.share[tmp := OTHER], temps := map[v := tmp]);
    xs', steps' := GoOn(es, share, xs, steps, Stage(v, tmp, OTHER), z);
    FindTurn(es, z, v, b);
    y := z.(claims := map[v := Cleared(b)]);
    xs', steps' := GoOn(es, share, xs', steps', FindAbsent(v, b), y);
  }

  lemma InstallAndLose(es: Plan, share: Tree, xs: seq<World>, steps: seq<Step>, v: Worker, t: Tree, p: Path)
    requires RunOf(es, share, xs, steps) && IsFile(share, p) && share[p] == MINE && v in es && Installs(es[v])
    requires var x := xs[|xs| - 1];
             && v in x.claims && x.claims[v] == Cleared(es[v].path) && v in x.temps && OnlyOther(x.event)
             && Rename(x.share, x.temps[v], es[v].path) == (true, t) && OnlyOther(t)
    ensures !NeverLoses(es)
  {
    var x := xs[|xs| - 1];
    InstallTurn(es, x, v, t);
    var xs', steps' := GoOn(es, share, xs, steps, Install(v), x.(share := t, temps := x.temps - {v}, claims := x.claims - {v}));
    LosingRun(es, share, xs', steps', p);
  }

  lemma PullCanLose(es: Plan, w: Worker, v: Worker)
    requires WellFormed(es) && v != w && w in es && es[w].LocalLoser? && v in es && es[v].Pull? && es[w].copy == es[v].path
    ensures !NeverLoses(es)
  {
    var share: Tree := map[es[w].path := MINE];
    TogetherIsFlat(share, Parent(es[w].path), es[w].copy);
    var xs, steps := Start(es, share);
    ReplacesWhatArrived(es, share, xs, steps, w, v, es[v].path, es[w].path);
  }

  /** The file at `b` moves to its copy, and the one to be lost is at `src` then. */
  lemma WinnerShare(src: Path, b: Path, c: Path) returns (share: Tree, p: Path)
    requires ValidPath(src) && ValidPath(b) && ValidPath(c) && src != b && c != b && Parent(src) == Parent(b) == Parent(c)
    ensures Sound(share) && IsFile(share, p) && share[p] == MINE && b in share
    ensures !Exists(share, c) && Rename(share, b, c) == (true, Moved(share, b, c)) && HoldsMine(Moved(share, b, c), src, b)
  {
    if c == src {
      share, p := map[b := MINE], b;
      WinnerShareHolds(share, src, b, c);
    } else {
      share, p := map[src := MINE, b := OTHER], src;
      WinnerShareHolds(share, src, b, c);
    }
  }

  lemma WinnerShareHolds(share: Tree, src: Path, b: Path, c: Path)
    requires ValidPath(src) && ValidPath(b) && ValidPath(c) && src != b && c != b && Parent(src) == Parent(b) == Parent(c)
    requires b in share && c !in share && !share[b].Directory? && (forall q :: q in share ==> q == src || q == b)
    requires if c == src then share[b] == MINE else src in share && share[src] == MINE && share[b] == OTHER
    ensures Sound(share) && !Exists(share, c) && Rename(share, b, c) == (true, Moved(share, b, c)) && HoldsMine(Moved(share, b, c), src, b)
  {
    TogetherIsFlat(share, Parent(b), c);
    MoveBeside(share, Parent(b), b, c);
    WinnerMoved(share, src, b, c);
  }

  lemma WinnerMoved(share: Tree, src: Path, b: Path, c: Path)
    requires src != b && c != b && b in share && forall q :: q in share ==> q == src || q == b
    requires if c == src then share[b] == MINE else src in share && share[src] == MINE && share[b] == OTHER
    ensures OneMine(Moved(share, b, c), src) && Moved(share, b, c).Keys == {src, c}
  {
    assert Moved(share, b, c).Keys == (share.Keys - {b, c}) + {c};
  }

  /** The winner of one conflict is pulled to where the loser of another goes. */
  lemma WinnerCanLose(es: Plan, w: Worker, v: Worker)
    requires WellFormed(es) && v != w && w in es && es[w].LocalLoser? && v in es && es[v].LocalLoser? && !es[v].dirWins && es[w].copy == es[v].path
    ensures !NeverLoses(es)
  {
    var b, c := es[v].path, es[v].copy;
    var share, p := WinnerShare(es[w].path, b, c);
    var xs, steps := Start(es, share);
    var x;
    xs, steps, x := LookAndPreserve(es, share, xs, steps, v, Moved(share, b, c));
    ReplacesWhatArrived(es, share, xs, steps, w, v, b, p);
  }

  // Two losing files.

  lemma SameCopyShare(p: Path, q: Path, b: Path)
    requires p != [] && q != [] && b != [] && p != q && b != p && b != q && Parent(p) == Parent(q) == Parent(b)
    ensures var share: Tree := map[p := MINE, q := OTHER];
            var t := Moved(share, p, b);
            && Sound(share) && !Exists(share, b) && Rename(share, p, b) == (true, t)
            && q in t && Rename(t, q, b) == (true, Moved(t, q, b)) && OnlyOther(Moved(t, q, b))
  {
    var share: Tree := map[p := MINE, q := OTHER];
    TogetherIsFlat(share, Parent(b), b);
    MoveBeside(share, Parent(b), p, b);
    MoveBeside(Moved(share, p, b), Parent(b), q, b);
  }

  /** Both find their conflict paths free; the first file arrives, and the second worker's move replaces it. */
  lemma MovedOver(es: Plan, w: Worker, v: Worker, share: Tree, t: Tree, t': Tree, p: Path)
    requires v != w && w in es && es[w].LocalLoser? && v in es && es[v].LocalLoser?
    requires Sound(share) && IsFile(share, p) && share[p] == MINE && !Exists(share, es[v].copy) && !Exists(share, es[w].copy)
    requires Rename(share, es[w].path, es[w].copy) == (true, t)
    requires Rename(t, es[v].path, es[v].copy) == (true, t') && OnlyOther(t')
    ensures !NeverLoses(es)
  {
    var xs, steps := Start(es, share);
    var c := es[v].copy;
    FindTurn(es, xs[|xs| - 1], v, c);
    xs, steps := GoOn(es, share, xs, steps, FindAbsent(v, c), AtStart(share).(claims := map[v := Cleared(c)]));
    var x;
    xs, steps, x := LookAndPreserve(es, share, xs, steps, w, t);
    xs, steps, x := PreserveNow(es, share, xs, steps, v, t');
    LosingRun(es, share, xs, steps, p);
  }

  lemma SameCopyCanLose(es: Plan, w: Worker, v: Worker)
    requires WellFormed(es) && v != w && w in es && es[w].LocalLoser? && v in es && es[v].LocalLoser? && es[w].copy == es[v].copy
    ensures !NeverLoses(es)
  {
    var p, q, b := es[w].path, es[v].path, es[w].copy;
    var share: Tree := map[p := MINE, q := OTHER];
    SameCopyShare(p, q, b);
    var t := Moved(share, p, b);
    MovedOver(es, w, v, share, t, Moved(t, q, b), p);
  }

  /** The paths of two entries in one directory, at or below the conflict path of a third. */
  lemma BothArrive(e: Entry, q1: Path, q2: Path) returns (p1: Path, p2: Path)
    requires e.LocalLoser? && Apart(e.path, e.copy) && q1 != [] && q2 != [] && q1 != q2 && Parent(q1) == Parent(q2) && e.copy <= Parent(q1)
    ensures e.copy <= q1 && e.copy <= q2 && Apart(q1, q2) && e.path <= p1 && e.path <= p2 && Apart(p1, p2)
    ensures var t: Tree := map[p1 := MINE, p2 := OTHER];
            Sound(t) && !Exists(t, e.copy) && !Exists(t, q1) && Rename(t, e.path, e.copy) == (true, map[q1 := MINE, q2 := OTHER])
  {
    Beside(q1, q2);
    assert Parent(q1) <= q1 && Parent(q2) <= q2;
    var r1, r2 := q1[|e.copy|..], q2[|e.copy|..];
    assert e.copy + r1 == q1 && e.copy + r2 == q2;
    p1, p2 := e.path + r1, e.path + r2;
    assert p1 != p2 by { assert p1[|e.path|..] == r1 && p2[|e.path|..] == r2; }
    ApartIsSound(map[p1 := MINE, p2 := OTHER]);
    MoveTwo(e.path, r1, r2, e.copy);
    BelowApart(e.path, e.copy, p1, q1);
    BelowApart(e.path, e.copy, p2, q1);
  }

  /** A losing directory goes above both paths of another conflict, which then moves one of its files onto the other. */
  lemma LoserAboveCanLose(es: Plan, w: Worker, v: Worker)
    requires WellFormed(es) && v != w && w in es && es[w].LocalLoser? && v in es && es[v].LocalLoser?
    requires es[w].copy <= Parent(es[v].path)
    ensures !NeverLoses(es)
  {
    var c, d := es[v].copy, es[v].path;
    Beside(es[w].path, es[w].copy);
    var p1, p2 := BothArrive(es[w], c, d);
    OneReplacesOther(c, d);
    var t: Tree := map[c := MINE, d := OTHER];
    MovedOver(es, w, v, map[p1 := MINE, p2 := OTHER], t, Moved(t, d, c), p1);
  }

  lemma OneReplacesOther(b: Path, q: Path)
    requires b != [] && q != [] && b != q && Parent(b) == Parent(q)
    ensures var t: Tree := map[b := MINE, q := OTHER];
            Rename(t, q, b) == (true, Moved(t, q, b)) && OnlyOther(Moved(t, q, b))
  {
    MoveBeside(map[b := MINE, q := OTHER], Parent(b), q, b);
  }

  // A file pulled below the conflict path.

  /**
   The directory that replaces the one the pull was staged in brings a file with
   the name of the staged one, which is then installed in its place.
   */
  lemma PullBelowCanLose(es: Plan, w: Worker, v: Worker)
    requires WellFormed(es) && v != w && w in es && es[w].LocalLoser? && v in es && es[v].Pull?
    requires es[w].copy <= Parent(es[v].path)
    ensures !NeverLoses(es)
  {
    var a, b := es[w].copy, es[v].path;
    var tmp := StagingBeside(b);
    StagingIsBeside(b);
    Beside(es[w].path, a);
    Beside(tmp, b);
    assert Parent(tmp) <= tmp && Parent(b) <= b;
    var p1, p2 := BothArrive(es[w], b, tmp);
    StagedBelow(es[w].path, a, b, tmp, p1, p2);
    OneReplacesOther(b, tmp);
    var t: Tree := map[b := MINE, tmp := OTHER];
    StagedMovedOver(es, w, v, map[p1 := MINE, p2 := OTHER], tmp, t, Moved(t, tmp, b), p1);
  }

  lemma StagedMovedOver(es: Plan, w: Worker, v: Worker, share: Tree, tmp: Path, t: Tree, t': Tree, p: Path)
    requires v != w && w in es && es[w].LocalLoser? && v in es && es[v].Pull? && IsStagingFor(es[v], tmp)
    requires Sound(share) && IsFile(share, p) && share[p] == MINE
    requires var t1, a := share[tmp := OTHER], es[w].copy;
             && Free(share, tmp) && !Exists(t1, es[v].path)
             && Exists(t1, a) && !Blocked(t1, a) && (forall q :: q in t1 && a <= q ==> t1[q] == OTHER)
             && Rename(Without(t1, a), es[w].path, a) == (true, t)
             && Rename(t, tmp, es[v].path) == (true, t') && OnlyOther(t')
    ensures !NeverLoses(es)
  {
    var xs, steps := Start(es, share);
    var x;
    xs, steps, x := StageAndLook(es, share, xs, steps, v, es[v].path, tmp);
    xs, steps, x := TrashAndPreserve(es, share, xs, steps, w, t);
    InstallAndLose(es, share, xs, steps, v, t', p);
  }

  /** A worker trashes what is at its conflict path and moves its losing file there. */
  lemma TrashAndPreserve(es: Plan, share: Tree, xs: seq<World>, steps: seq<Step>, w: Worker, t: Tree)
    returns (xs': seq<World>, steps': seq<Step>, y: World)
    requires RunOf(es, share, xs, steps) && w in es && es[w].LocalLoser?
    requires var x, a := xs[|xs| - 1], es[w].copy;
             && w !in x.temps && w !in x.preserved && w !in x.claims && EventFree(x, w) && x.event == map[]
             && Exists(x.share, a) && !Blocked(x.share, a) && (forall q :: q in x.share && a <= q ==> x.share[q] == OTHER)
             && Rename(Without(x.share, a), es[w].path, a) == (true, t)
    ensures RunOf(es, share, xs', steps') && xs'[|xs'| - 1] == y
    ensures var x := xs[|xs| - 1];
            y.share == t && OnlyOther(y.event) && y.temps == x.temps && y.claims == x.claims
  {
    var x, a := xs[|xs| - 1], es[w].copy;
    TrashTurn(es, x, w, a);
    var z := x.(share := Without(x.share, a), event := Grafted(map[], x.share, a, a), claims := x.claims[w := Cleared(a)]);
    xs', steps' := GoOn(es, share, xs, steps, Trash(w, a, a), z);
    xs', steps', y := PreserveNow(es, share, xs', steps', w, t);
    assert z.claims - {w} == x.claims;
  }

  /** Only the staged file is below the conflict path. */
  lemma StagedBelow(src: Path, a: Path, b: Path, tmp: Path, p1: Path, p2: Path)
    requires Apart(src, a) && src <= p1 && src <= p2 && Apart(tmp, b) && a <= b && a <= tmp && a != tmp
    ensures var share: Tree := map[p1 := MINE, p2 := OTHER];
            var t := share[tmp := OTHER];
            && Free(share, tmp) && !Exists(t, b) && Exists(t, a) && !Blocked(t, a)
            && (forall q :: q in t && a <= q ==> t[q] == OTHER) && Without(t, a) == share
  {
    BelowApart(src, a, p1, a);
    BelowApart(src, a, p2, a);
    BelowApart(src, a, p1, b);
    BelowApart(src, a, p2, b);
    BelowApart(src, a, p1, tmp);
    BelowApart(src, a, p2, tmp);
    var share: Tree := map[p1 := MINE, p2 := OTHER];
    NotBlockedBy(share, tmp);
    var t := share[tmp := OTHER];
    assert tmp in t && a <= tmp;
    forall i | 0 <= i < |a| ensures !IsFile(t, a[..i]) {
      assert a[..i] <= a && |a[..i]| < |tmp|;
    }
  }

  lemma CollisionCanLose(es: Plan, w: Worker, v: Worker, b: Path)
    requires WellFormed(es) && v != w && w in es && es[w].LocalLoser? && v in es && Clears(es[v], b) && es[w].copy <= b
    ensures !NeverLoses(es)
  {
    var a := es[w].copy;
    AboveOrBelow(a, b);
    match es[v]
    case Delete(_) => DeleteCanLose(es, w, v);
    case Pull(_) => if a == b { PullCanLose(es, w, v); } else { PullBelowCanLose(es, w, v); }
    case LocalLoser(path, copy, dirWins) =>
      if a == path && !dirWins {
        WinnerCanLose(es, w, v);
      } else if a == copy {
        SameCopyCanLose(es, w, v);
      } else {
        LoserAboveCanLose(es, w, v);
      }
  }

  /**
   A plan loses no file, however its workers interleave, if and only if no
   conflict path a losing file is moved to is, or lies above, a path another
   entry clears to write or to delete.
   */
  lemma PlanLosesNothingIff(es: Plan)
    requires WellFormed(es)
    ensures NeverLoses(es) <==> CopiesKeepClear(es)
  {
    if CopiesKeepClear(es) {
      ClearPlansLoseNothing(es);
    } else {
      var w, v, b :| w in es && es[w].LocalLoser? && v in es && v != w && Clears(es[v], b) && es[w].copy <= b;
      CollisionCanLose(es, w, v, b);
    }
  }
}

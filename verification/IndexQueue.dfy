/**
 The coalescing index scheduler: enqueuers, a bounded queue of keys, and
 workers that run one job per key at a time.

 Each locked section and each channel operation is one step, so every
 interleaving of enqueuers and workers is a run. Jobs are numbered in the order
 they are accepted, which lets the theorems follow a single job.
 */
module IndexQueue {
  const MAX_PENDING := 64
  const MAX_ACTIVE := 4

  type Key = string

  datatype Phase =
    | Idle
    | Took(key: Key)                 // received the key, not yet under the lock
    | Claimed(key: Key, job: nat)    // waiting for a slot
    | Working(key: Key, job: nat)
    | Done(key: Key)

  datatype State = State(
    pending: map<Key, nat>,
    queue: seq<Key>,
    running: set<Key>,
    workers: seq<Phase>,
    others: nat,                     // slots held by work outside this queue
    accepted: seq<Key>,              // the key of every job accepted so far
    started: seq<nat>)               // jobs in the order they started

  datatype Step =
    | Enqueue(key: Key)
    | Take(w: nat)
    | Claim(w: nat)
    | Begin(w: nat)
    | End(w: nat)
    | Release(w: nat)
    | OtherBegin
    | OtherEnd

  // --- The steps ---------------------------------------------------------------------------

  function Active(ws: seq<Phase>): nat {
    if ws == [] then 0 else Active(ws[1..]) + if ws[0].Working? then 1 else 0
  }

  predicate Accepts(s: State, key: Key) {
    key in s.pending || (|s.pending| < MAX_PENDING && (key in s.running || |s.queue| < MAX_PENDING))
  }

  function EnqueueNext(s: State, key: Key): State {
    if !Accepts(s, key) then s
    else s.(pending := s.pending[key := |s.accepted|],
            accepted := s.accepted + [key],
            queue := if key in s.pending || key in s.running then s.queue else s.queue + [key])
  }

  predicate Enabled(s: State, step: Step) {
    match step
    case Enqueue(_) => true
    case Take(w) => w < |s.workers| && s.workers[w].Idle? && s.queue != []
    case Claim(w) => w < |s.workers| && s.workers[w].Took?
    case Begin(w) => w < |s.workers| && s.workers[w].Claimed? && Active(s.workers) + s.others < MAX_ACTIVE
    case End(w) => w < |s.workers| && s.workers[w].Working?
    case Release(w) => w < |s.workers| && s.workers[w].Done? && !ReleaseBlocks(s, w)
    case OtherBegin => Active(s.workers) + s.others < MAX_ACTIVE
    case OtherEnd => s.others > 0
  }

  /** The send made under the lock would have to wait for room. */
  predicate ReleaseBlocks(s: State, w: nat)
    requires w < |s.workers| && s.workers[w].Done?
  {
    s.workers[w].key in s.pending && |s.queue| >= MAX_PENDING
  }

  function Next(s: State, step: Step): State
    requires Enabled(s, step)
  {
    match step
    case Enqueue(key) => EnqueueNext(s, key)
    case Take(w) => s.(queue := s.queue[1..], workers := s.workers[w := Took(s.queue[0])])
    case Claim(w) =>
      var key := s.workers[w].key;
      if key in s.pending
      then s.(pending := s.pending - {key}, running := s.running + {key}, workers := s.workers[w := Claimed(key, s.pending[key])])
      else s.(workers := s.workers[w := Idle])
    case Begin(w) =>
      var p := s.workers[w];
      s.(workers := s.workers[w := Working(p.key, p.job)], started := s.started + [p.job])
    case End(w) => s.(workers := s.workers[w := Done(s.workers[w].key)])
    case Release(w) =>
      var key := s.workers[w].key;
      s.(running := s.running - {key},
         queue := if key in s.pending then s.queue + [key] else s.queue,
         workers := s.workers[w := Idle])
    case OtherBegin => s.(others := s.others + 1)
    case OtherEnd => s.(others := s.others - 1)
  }

  ghost predicate Initial(s: State) {
    && s.pending == map[] && s.queue == [] && s.running == {} && s.others == 0 && s.accepted == [] && s.started == []
    && forall w :: 0 <= w < |s.workers| ==> s.workers[w].Idle?
  }

  ghost predicate IsRun(ss: seq<State>, steps: seq<Step>) {
    && |ss| == |steps| + 1
    && Initial(ss[0])
    && forall i :: 0 <= i < |steps| ==> StepAt(ss, steps, i)
  }

  ghost predicate StepAt(ss: seq<State>, steps: seq<Step>, i: nat)
    requires i < |steps| < |ss|
  {
    Enabled(ss[i], steps[i]) && ss[i + 1] == Next(ss[i], steps[i])
  }

  // --- What every step keeps --------------------------------------------------------------------

  /** The worker runs, or is about to run or release, a job for the key. */
  predicate Busy(p: Phase, key: Key) {
    match p
    case Claimed(k, _) => k == key
    case Working(k, _) => k == key
    case Done(k) => k == key
    case _ => false
  }

  ghost predicate Distinct(q: seq<Key>) {
    forall i, j :: 0 <= i < j < |q| ==> q[i] != q[j]
  }

  /** A key's one token is in the queue or in the hand of one worker, and only while it is pending and not running. */
  ghost predicate Tokens(s: State) {
    && Distinct(s.queue)
    && (forall k :: k in s.queue ==> k in s.pending && k !in s.running)
    && (forall w :: 0 <= w < |s.workers| && s.workers[w].Took? ==>
          s.workers[w].key in s.pending && s.workers[w].key !in s.running && s.workers[w].key !in s.queue)
    && (forall v, w :: 0 <= v < w < |s.workers| && s.workers[v].Took? && s.workers[w].Took? ==> s.workers[v].key != s.workers[w].key)
  }

  ghost predicate InHand(ws: seq<Phase>, k: Key) {
    exists w :: 0 <= w < |ws| && ws[w] == Took(k)
  }

  ghost predicate Queued(s: State, k: Key) {
    k in s.queue || k in s.running || InHand(s.workers, k)
  }

  /** The running set says which keys busy workers have, one worker each. */
  ghost predicate Exclusive(s: State) {
    && (forall w, k :: 0 <= w < |s.workers| && Busy(s.workers[w], k) ==> k in s.running)
    && (forall k :: k in s.running ==> exists w :: 0 <= w < |s.workers| && Busy(s.workers[w], k))
    && (forall v, w, k :: 0 <= v < w < |s.workers| && Busy(s.workers[v], k) ==> !Busy(s.workers[w], k))
  }

  ghost predicate Inv(s: State) {
    && Tokens(s)
    && (forall k :: k in s.pending ==> Queued(s, k))
    && Exclusive(s)
    && |s.pending| <= MAX_PENDING
    && Active(s.workers) + s.others <= MAX_ACTIVE
  }

  lemma ActiveUpdate(ws: seq<Phase>, w: nat, p: Phase)
    requires w < |ws|
    ensures Active(ws[w := p]) + (if ws[w].Working? then 1 else 0) == Active(ws) + if p.Working? then 1 else 0
  {
    if w > 0 {
      assert ws[w := p][1..] == ws[1..][w - 1 := p];
      ActiveUpdate(ws[1..], w - 1, p);
    } else {
      assert ws[w := p][1..] == ws[1..];
    }
  }

  /** Distinct keys of a map are no more than its size. */
  lemma DistinctKeysFit(q: seq<Key>, m: map<Key, nat>)
    requires Distinct(q) && forall k :: k in q ==> k in m
    ensures |q| <= |m|
  {
    if q != [] {
      var rest := m - {q[0]};
      assert rest.Keys == m.Keys - {q[0]};
      assert |m.Keys| == |m| && |rest.Keys| == |rest|;
      forall k | k in q[1..] ensures k in rest { }
      DistinctKeysFit(q[1..], rest);
    }
  }

  /** The send at the end of `Enqueue` always finds room: no accepted notification is dropped. */
  lemma EnqueueFindsRoom(s: State, key: Key)
    requires Inv(s) && key !in s.pending && |s.pending| < MAX_PENDING
    ensures |s.queue| < MAX_PENDING
  {
    DistinctKeysFit(s.queue, s.pending);
  }

  /** The send made while holding the lock never waits. */
  lemma ReleaseFindsRoom(s: State, w: nat)
    requires Inv(s) && w < |s.workers| && s.workers[w].Done?
    ensures !ReleaseBlocks(s, w)
  {
    var key := s.workers[w].key;
    assert Busy(s.workers[w], key);
    if key in s.pending {
      var rest := s.pending - {key};
      assert rest.Keys == s.pending.Keys - {key};
      assert |rest.Keys| == |rest| && |s.pending.Keys| == |s.pending|;
      DistinctKeysFit(s.queue, rest);
    }
  }

  lemma EnqueueKeepsInv(s: State, key: Key)
    requires Inv(s)
    ensures Inv(EnqueueNext(s, key))
  {
    var s' := EnqueueNext(s, key);
    assert s'.pending.Keys == if Accepts(s, key) then s.pending.Keys + {key} else s.pending.Keys;
    assert |s'.pending.Keys| == |s'.pending| && |s.pending.Keys| == |s.pending|;
    forall k | k in s'.pending ensures Queued(s', k) {
      if k in s.pending { assert Queued(s, k); }
    }
  }

  lemma TakeKeepsInv(s: State, w: nat)
    requires Inv(s) && Enabled(s, Take(w))
    ensures Inv(Next(s, Take(w)))
  {
    var s' := Next(s, Take(w));
    ActiveUpdate(s.workers, w, Took(s.queue[0]));
    assert s'.workers[w] == Took(s.queue[0]);
    SameBusy(s, s', w);
    forall k | k in s'.pending ensures Queued(s', k) {
      assert Queued(s, k);
      KeepsTook(s.workers, w, Took(s.queue[0]), k);
    }
  }

  lemma KeepsTook(ws: seq<Phase>, w: nat, p: Phase, k: Key)
    requires w < |ws| && (ws[w] != Took(k) || p == Took(k))
    ensures InHand(ws, k) ==> InHand(ws[w := p], k)
  {
    if v :| 0 <= v < |ws| && ws[v] == Took(k) {
      assert ws[w := p][v] == Took(k);
    }
  }

  /** A step of one worker that stays as busy as it was. */
  lemma SameBusy(s: State, s': State, w: nat)
    requires Exclusive(s) && s'.running == s.running && w < |s.workers|
    requires |s'.workers| == |s.workers| && s'.workers == s.workers[w := s'.workers[w]]
    requires forall k :: Busy(s'.workers[w], k) <==> Busy(s.workers[w], k)
    ensures Exclusive(s')
  {
    assert forall v :: 0 <= v < |s.workers| && v != w ==> s'.workers[v] == s.workers[v];
    assert forall v, k :: 0 <= v < |s.workers| ==> Busy(s'.workers[v], k) == Busy(s.workers[v], k);
    forall k | k in s'.running ensures exists v :: 0 <= v < |s'.workers| && Busy(s'.workers[v], k) {
      var v :| 0 <= v < |s.workers| && Busy(s.workers[v], k);
      assert Busy(s'.workers[v], k);
    }
  }

  lemma ClaimKeepsExclusive(s: State, s': State, w: nat, key: Key)
    requires Exclusive(s) && w < |s.workers| && s.workers[w].Took? && key !in s.running
    requires s'.running == s.running + {key} && |s'.workers| == |s.workers| && s'.workers == s.workers[w := s'.workers[w]]
    requires s'.workers[w].Claimed? && s'.workers[w].key == key
    ensures Exclusive(s')
  {
    assert Busy(s'.workers[w], key);
    assert forall v :: 0 <= v < |s.workers| && v != w ==> s'.workers[v] == s.workers[v];
    forall k | k in s'.running ensures exists v :: 0 <= v < |s'.workers| && Busy(s'.workers[v], k) {
      if k != key {
        var v :| 0 <= v < |s.workers| && Busy(s.workers[v], k);
        assert Busy(s'.workers[v], k);
      }
    }
  }

  lemma ClaimKeepsInv(s: State, w: nat)
    requires Inv(s) && Enabled(s, Claim(w))
    ensures Inv(Next(s, Claim(w)))
  {
    var s', key := Next(s, Claim(w)), s.workers[w].key;
    ActiveUpdate(s.workers, w, s'.workers[w]);
    assert |s'.pending| <= |s.pending| by {
      assert s'.pending.Keys == s.pending.Keys - {key};
      assert |s'.pending.Keys| == |s'.pending| && |s.pending.Keys| == |s.pending|;
    }
    ClaimKeepsExclusive(s, s', w, key);
    forall k | k in s'.pending ensures Queued(s', k) {
      assert Queued(s, k);
      KeepsTook(s.workers, w, s'.workers[w], k);
    }
  }

  /** A step of one busy worker that leaves pending keys, the queue and the running set alone. */
  lemma WorkKeepsInv(s: State, s': State, w: nat)
    requires Inv(s) && w < |s.workers| == |s'.workers| && !s.workers[w].Took? && !s'.workers[w].Took?
    requires s'.pending == s.pending && s'.queue == s.queue && s'.running == s.running && s'.others == s.others
    requires s'.workers == s.workers[w := s'.workers[w]]
    requires forall k :: Busy(s'.workers[w], k) <==> Busy(s.workers[w], k)
    requires Active(s'.workers) + s'.others <= MAX_ACTIVE
    ensures Inv(s')
  {
    SameBusy(s, s', w);
    forall k | k in s'.pending ensures Queued(s', k) {
      assert Queued(s, k);
      KeepsTook(s.workers, w, s'.workers[w], k);
    }
  }

  lemma ReleaseKeepsInv(s: State, w: nat)
    requires Inv(s) && Enabled(s, Release(w))
    ensures Inv(Next(s, Release(w)))
  {
    var s', key := Next(s, Release(w)), s.workers[w].key;
    ActiveUpdate(s.workers, w, Idle);
    assert Busy(s.workers[w], key);
    forall k | k in s'.running ensures exists v :: 0 <= v < |s'.workers| && Busy(s'.workers[v], k) {
      var v :| 0 <= v < |s.workers| && Busy(s.workers[v], k);
      assert Busy(s'.workers[v], k);
    }
    forall k | k in s'.pending ensures Queued(s', k) {
      assert Queued(s, k);
      KeepsTook(s.workers, w, Idle, k);
    }
  }

  lemma StepKeepsInv(s: State, step: Step)
    requires Inv(s) && Enabled(s, step)
    ensures Inv(Next(s, step))
  {
    match step
    case Enqueue(key) => EnqueueKeepsInv(s, key);
    case Take(w) => TakeKeepsInv(s, w);
    case Claim(w) => ClaimKeepsInv(s, w);
    case Begin(w) =>
      ActiveUpdate(s.workers, w, Working(s.workers[w].key, s.workers[w].job));
      WorkKeepsInv(s, Next(s, step), w);
    case End(w) =>
      ActiveUpdate(s.workers, w, Done(s.workers[w].key));
      WorkKeepsInv(s, Next(s, step), w);
    case Release(w) => ReleaseKeepsInv(s, w);
    case _ =>
      forall k | k in s.pending ensures Queued(Next(s, step), k) { assert Queued(s, k); }
  }

  lemma NobodyActive(ws: seq<Phase>)
    requires forall w :: 0 <= w < |ws| ==> !ws[w].Working?
    ensures Active(ws) == 0
  {
    if ws != [] {
      assert forall w :: 0 <= w < |ws[1..]| ==> ws[1..][w] == ws[w + 1];
      NobodyActive(ws[1..]);
    }
  }

  lemma {:induction false} RunKeepsInv(ss: seq<State>, steps: seq<Step>, i: nat)
    requires IsRun(ss, steps) && i < |ss|
    ensures Inv(ss[i])
  {
    if i == 0 {
      NobodyActive(ss[0].workers);
    } else {
      assert StepAt(ss, steps, i - 1);
      RunKeepsInv(ss, steps, i - 1);
      StepKeepsInv(ss[i - 1], steps[i - 1]);
    }
  }

  // --- The scheduler's promises ----------------------------------------------------------------------

  /**
   In every run: queued keys are distinct and pending, no two workers have the
   same key, no more jobs run than there are slots, the send under the lock
   never waits, and a notification is refused only when 64 other keys wait.
   */
  lemma SchedulerIsSafe(ss: seq<State>, steps: seq<Step>, i: nat)
    requires IsRun(ss, steps) && i < |ss|
    ensures var s := ss[i];
            && Distinct(s.queue) && (forall k :: k in s.queue ==> k in s.pending)
            && (forall v, w, k :: 0 <= v < w < |s.workers| && Busy(s.workers[v], k) ==> !Busy(s.workers[w], k))
            && Active(s.workers) + s.others <= 4 && |s.queue| <= |s.pending| <= 64
            && (forall w :: 0 <= w < |s.workers| && s.workers[w].Done? && s.workers[w].key in s.pending ==> |s.queue| < 64)
            && (forall w :: 0 <= w < |s.workers| && s.workers[w].Took? ==> s.workers[w].key in s.pending)
            && (forall key :: Accepts(s, key) <==> key in s.pending || |s.pending| < 64)
  {
    RunKeepsInv(ss, steps, i);
    var s := ss[i];
    DistinctKeysFit(s.queue, s.pending);
    forall w | 0 <= w < |s.workers| && s.workers[w].Done? ensures !ReleaseBlocks(s, w) { ReleaseFindsRoom(s, w); }
    forall key ensures Accepts(s, key) <==> key in s.pending || |s.pending| < MAX_PENDING {
      if key !in s.pending && |s.pending| < MAX_PENDING { EnqueueFindsRoom(s, key); }
    }
  }

  // --- What becomes of an accepted job ------------------------------------------------------------------

  predicate ClaimedBy(s: State, w: nat, j: nat) {
    w < |s.workers| && s.workers[w].Claimed? && s.workers[w].job == j
  }

  /** Job `j` has started, or is on its way to. */
  ghost predicate Kept(s: State, j: nat) {
    || j in s.started
    || (exists w :: ClaimedBy(s, w, j))
    || (exists k :: k in s.pending && s.pending[k] == j)
  }

  ghost predicate Superseded(s: State, j: nat)
    requires j < |s.accepted|
  {
    exists j' :: j < j' < |s.accepted| && s.accepted[j'] == s.accepted[j]
  }

  ghost predicate NoneLost(s: State) {
    forall j :: 0 <= j < |s.accepted| ==> Kept(s, j) || Superseded(s, j)
  }

  predicate IsJob(accepted: seq<Key>, k: Key, j: nat) {
    j < |accepted| && accepted[j] == k
  }

  /** No job of `k` at or after `j` has started. */
  ghost predicate Newest(accepted: seq<Key>, started: seq<nat>, k: Key, j: nat) {
    forall i :: 0 <= i < |started| && IsJob(accepted, k, started[i]) ==> started[i] < j
  }

  predicate SameKey(accepted: seq<Key>, a: nat, b: nat) {
    a < |accepted| && b < |accepted| && accepted[a] == accepted[b]
  }

  /** Jobs of one key start in the order they were accepted, each at most once. */
  ghost predicate InOrder(accepted: seq<Key>, started: seq<nat>) {
    && (forall i :: 0 <= i < |started| ==> started[i] < |accepted|)
    && (forall i, i' :: 0 <= i < i' < |started| && SameKey(accepted, started[i], started[i']) ==> started[i] < started[i'])
  }

  /** Waiting jobs belong to their key and come after every job of that key that has started. */
  ghost predicate Ordered(s: State) {
    && (forall k :: k in s.pending ==> IsJob(s.accepted, k, s.pending[k]) && Newest(s.accepted, s.started, k, s.pending[k]))
    && (forall w :: 0 <= w < |s.workers| && s.workers[w].Claimed? ==> ClaimOrdered(s, s.workers[w].key, s.workers[w].job))
    && InOrder(s.accepted, s.started)
  }

  ghost predicate ClaimOrdered(s: State, k: Key, j: nat) {
    IsJob(s.accepted, k, j) && Newest(s.accepted, s.started, k, j) && (k in s.pending ==> j < s.pending[k])
  }

  lemma AcceptKeepsNewest(accepted: seq<Key>, started: seq<nat>, key: Key, k: Key, j: nat)
    requires InOrder(accepted, started) && Newest(accepted, started, k, j)
    ensures Newest(accepted + [key], started, k, j)
  {
    forall i | 0 <= i < |started| && IsJob(accepted + [key], k, started[i]) ensures started[i] < j {
      assert IsJob(accepted, k, started[i]);
    }
  }

  lemma AcceptKeepsOrder(accepted: seq<Key>, started: seq<nat>, key: Key)
    requires InOrder(accepted, started)
    ensures InOrder(accepted + [key], started) && Newest(accepted + [key], started, key, |accepted|)
  {
    forall i, i' | 0 <= i < i' < |started| && SameKey(accepted + [key], started[i], started[i']) ensures started[i] < started[i'] {
      assert SameKey(accepted, started[i], started[i']);
    }
  }

  lemma EnqueueKeepsOrdered(s: State, key: Key)
    requires Ordered(s)
    ensures Ordered(EnqueueNext(s, key))
  {
    var s' := EnqueueNext(s, key);
    if Accepts(s, key) {
      AcceptKeepsOrder(s.accepted, s.started, key);
      forall k | k in s'.pending ensures IsJob(s'.accepted, k, s'.pending[k]) && Newest(s'.accepted, s'.started, k, s'.pending[k]) {
        if k != key { AcceptKeepsNewest(s.accepted, s.started, key, k, s.pending[k]); }
      }
      forall w | 0 <= w < |s.workers| && s.workers[w].Claimed? ensures ClaimOrdered(s', s.workers[w].key, s.workers[w].job) {
        assert ClaimOrdered(s, s.workers[w].key, s.workers[w].job);
        AcceptKeepsNewest(s.accepted, s.started, key, s.workers[w].key, s.workers[w].job);
      }
    }
  }

  lemma ClaimKeepsOrdered(s: State, w: nat)
    requires Inv(s) && Ordered(s) && Enabled(s, Claim(w))
    ensures Ordered(Next(s, Claim(w)))
  {
    var s', key := Next(s, Claim(w)), s.workers[w].key;
    forall v | 0 <= v < |s'.workers| && s'.workers[v].Claimed? ensures ClaimOrdered(s', s'.workers[v].key, s'.workers[v].job) {
      if v != w { assert ClaimOrdered(s, s.workers[v].key, s.workers[v].job); }
    }
  }

  lemma StartKeepsNewest(accepted: seq<Key>, started: seq<nat>, job: nat, k: Key, j: nat)
    requires Newest(accepted, started, k, j) && (IsJob(accepted, k, job) ==> job < j)
    ensures Newest(accepted, started + [job], k, j)
  {
  }

  lemma StartKeepsOrder(accepted: seq<Key>, started: seq<nat>, k: Key, job: nat)
    requires InOrder(accepted, started) && IsJob(accepted, k, job) && Newest(accepted, started, k, job)
    ensures InOrder(accepted, started + [job])
  {
    var started' := started + [job];
    forall i, i' | 0 <= i < i' < |started'| && SameKey(accepted, started'[i], started'[i']) ensures started'[i] < started'[i'] {
      if i' == |started| {
        assert IsJob(accepted, k, started[i]);
      } else {
        assert SameKey(accepted, started[i], started[i']);
      }
    }
  }

  lemma BeginKeepsOrdered(s: State, w: nat)
    requires Inv(s) && Ordered(s) && Enabled(s, Begin(w))
    ensures Ordered(Next(s, Begin(w)))
  {
    var s', p := Next(s, Begin(w)), s.workers[w];
    assert ClaimOrdered(s, p.key, p.job) && Busy(p, p.key);
    StartKeepsOrder(s.accepted, s.started, p.key, p.job);
    forall k | k in s'.pending ensures Newest(s'.accepted, s'.started, k, s'.pending[k]) {
      StartKeepsNewest(s.accepted, s.started, p.job, k, s.pending[k]);
    }
    forall v | 0 <= v < |s'.workers| && s'.workers[v].Claimed? ensures ClaimOrdered(s', s'.workers[v].key, s'.workers[v].job) {
      var q := s.workers[v];
      assert s'.workers[v] == q && Busy(q, q.key) && ClaimOrdered(s, q.key, q.job);
      assert q.key != p.key;
      StartKeepsNewest(s.accepted, s.started, p.job, q.key, q.job);
    }
  }

  /** A step that neither claims nor starts anything. */
  ghost predicate SameJobs(s: State, s': State) {
    && s'.pending == s.pending && s'.started == s.started && s'.accepted == s.accepted && |s'.workers| == |s.workers|
    && forall w :: 0 <= w < |s.workers| && (s.workers[w].Claimed? || s'.workers[w].Claimed?) ==> s'.workers[w] == s.workers[w]
  }

  lemma StepKeepsOrdered(s: State, step: Step)
    requires Inv(s) && Ordered(s) && Enabled(s, step)
    ensures Ordered(Next(s, step))
  {
    match step
    case Enqueue(key) => EnqueueKeepsOrdered(s, key);
    case Claim(w) => ClaimKeepsOrdered(s, w);
    case Begin(w) => BeginKeepsOrdered(s, w);
    case _ => SameJobsOrdered(s, Next(s, step));
  }

  lemma SameJobsOrdered(s: State, s': State)
    requires Ordered(s) && SameJobs(s, s')
    ensures Ordered(s')
  {
    forall w | 0 <= w < |s'.workers| && s'.workers[w].Claimed? ensures ClaimOrdered(s', s'.workers[w].key, s'.workers[w].job) {
      assert ClaimOrdered(s, s.workers[w].key, s.workers[w].job);
    }
  }

  /** What keeps a kept job kept: nothing starts being forgotten, claimed jobs start, pending jobs are claimed. */
  lemma KeptStays(s: State, s': State, j: nat)
    requires Kept(s, j) && s.started <= s'.started
    requires forall w :: ClaimedBy(s, w, j) ==> Kept(s', j)
    requires forall k :: k in s.pending && s.pending[k] == j ==> Kept(s', j)
    ensures Kept(s', j)
  {
    if j in s.started {
      var i :| 0 <= i < |s.started| && s.started[i] == j;
      assert s'.started[i] == j;
    }
  }

  lemma StepKeepsKept(s: State, step: Step, j: nat)
    requires Inv(s) && Enabled(s, step) && Kept(s, j)
    requires step.Enqueue? && step.key in s.pending ==> s.pending[step.key] != j
    ensures Kept(Next(s, step), j)
  {
    var s' := Next(s, step);
    forall w | ClaimedBy(s, w, j) ensures Kept(s', j) {
      if step == Begin(w) {
        assert s'.started[|s.started|] == j;
      } else {
        assert ClaimedBy(s', w, j);
      }
    }
    forall k | k in s.pending && s.pending[k] == j ensures Kept(s', j) {
      if step.Claim? && s.workers[step.w].key == k {
        assert ClaimedBy(s', step.w, j);
      } else {
        assert k in s'.pending && s'.pending[k] == j;
      }
    }
    KeptStays(s, s', j);
  }

  lemma StepKeepsNoneLost(s: State, step: Step)
    requires Inv(s) && Ordered(s) && NoneLost(s) && Enabled(s, step)
    ensures NoneLost(Next(s, step))
  {
    var s', n := Next(s, step), |s.accepted|;
    assert s.accepted <= s'.accepted;
    forall j | 0 <= j < |s'.accepted| ensures Kept(s', j) || Superseded(s', j) {
      if j == n {
        assert step.key in s'.pending && s'.pending[step.key] == n;
      } else if Superseded(s, j) {
        var j' :| j < j' < n && s.accepted[j'] == s.accepted[j];
        assert s'.accepted[j'] == s'.accepted[j];
      } else if step.Enqueue? && step.key in s.pending && s.pending[step.key] == j {
        assert IsJob(s.accepted, step.key, j);
        assert s'.accepted[n] == s'.accepted[j];
      } else {
        assert Kept(s, j);
        StepKeepsKept(s, step, j);
      }
    }
  }

  ghost predicate JobsOk(s: State) { NoneLost(s) && Ordered(s) }

  lemma {:induction false} RunKeepsJobs(ss: seq<State>, steps: seq<Step>, i: nat)
    requires IsRun(ss, steps) && i < |ss|
    ensures JobsOk(ss[i])
  {
    if i > 0 {
      assert StepAt(ss, steps, i - 1);
      RunKeepsJobs(ss, steps, i - 1);
      RunKeepsInv(ss, steps, i - 1);
      StepKeepsOrdered(ss[i - 1], steps[i - 1]);
      StepKeepsNoneLost(ss[i - 1], steps[i - 1]);
    }
  }

  /** In every run, jobs of one key start in the order they were accepted, each at most once. */
  lemma JobsStartInOrder(ss: seq<State>, steps: seq<Step>, i: nat)
    requires IsRun(ss, steps) && i < |ss|
    ensures InOrder(ss[i].accepted, ss[i].started)
  {
    RunKeepsJobs(ss, steps, i);
  }

  /** In every run no accepted job is lost: it starts, waits, or gave way to a later job of its key that does. */
  lemma {:induction false} AcceptedJobIsNeverLost(ss: seq<State>, steps: seq<Step>, i: nat, j: nat) returns (j': nat)
    requires IsRun(ss, steps) && i < |ss| && j < |ss[i].accepted|
    ensures j <= j' < |ss[i].accepted| && ss[i].accepted[j'] == ss[i].accepted[j] && Kept(ss[i], j')
    decreases |ss[i].accepted| - j
  {
    RunKeepsJobs(ss, steps, i);
    var s := ss[i];
    if Kept(s, j) {
      j' := j;
    } else {
      var n :| j < n < |s.accepted| && s.accepted[n] == s.accepted[j];
      j' := AcceptedJobIsNeverLost(ss, steps, i, n);
    }
  }

  // --- Progress ----------------------------------------------------------------------------------------------

  /** Work left to do if nothing more is enqueued. */
  function Weight(p: Phase): nat {
    match p
    case Idle => 0
    case Took(_) => 0
    case Claimed(_, _) => 4
    case Working(_, _) => 3
    case Done(_) => 2
  }

  function TotalWeight(ws: seq<Phase>): nat {
    if ws == [] then 0 else Weight(ws[0]) + TotalWeight(ws[1..])
  }

  function Rank(s: State): nat {
    6 * |s.pending| + |s.queue| + TotalWeight(s.workers)
  }

  lemma WeightUpdate(ws: seq<Phase>, w: nat, p: Phase)
    requires w < |ws|
    ensures TotalWeight(ws[w := p]) + Weight(ws[w]) == TotalWeight(ws) + Weight(p)
  {
    if w > 0 {
      assert ws[w := p][1..] == ws[1..][w - 1 := p];
      WeightUpdate(ws[1..], w - 1, p);
    } else {
      assert ws[w := p][1..] == ws[1..];
    }
  }

  predicate IsWork(step: Step) {
    step.Take? || step.Claim? || step.Begin? || step.End? || step.Release?
  }

  /** Every step a worker takes brings the end nearer, so without new notifications workers stop. */
  lemma {:induction false} WorkLowersRank(s: State, step: Step)
    requires Inv(s) && Enabled(s, step) && IsWork(step)
    ensures Rank(Next(s, step)) < Rank(s)
  {
    var s' := Next(s, step);
    WeightUpdate(s.workers, step.w, s'.workers[step.w]);
    if step.Claim? {
      var key := s.workers[step.w].key;
      assert s'.pending.Keys == s.pending.Keys - {key};
      assert |s'.pending.Keys| == |s'.pending| && |s.pending.Keys| == |s.pending|;
    }
  }

  /** No worker can move and no other work holds a slot. */
  ghost predicate Quiescent(s: State) {
    s.others == 0 && forall step :: IsWork(step) ==> !Enabled(s, step)
  }

  /** When the workers stop, they all wait for a key and nothing is pending: there is no deadlock. */
  lemma QuiescentMeansIdle(s: State)
    requires Inv(s) && Quiescent(s) && |s.workers| > 0
    ensures s.pending == map[] && s.queue == [] && forall w :: 0 <= w < |s.workers| ==> s.workers[w].Idle?
  {
    forall w | 0 <= w < |s.workers| ensures !s.workers[w].Working? && !s.workers[w].Took? && !s.workers[w].Done? {
      assert !Enabled(s, End(w)) && !Enabled(s, Claim(w)) && !Enabled(s, Release(w));
      if s.workers[w].Done? { ReleaseFindsRoom(s, w); }
    }
    NobodyActive(s.workers);
    forall w | 0 <= w < |s.workers| ensures s.workers[w].Idle? {
      assert !Enabled(s, Begin(w));
    }
    assert !Enabled(s, Take(0));
    assert forall k :: k in s.pending ==> Queued(s, k);
    assert s.pending.Keys == {};
  }

  /** When the workers stop, the last job accepted for every key has run. */
  lemma QuiescentMeansLastJobRan(ss: seq<State>, steps: seq<Step>, i: nat, j: nat)
    requires IsRun(ss, steps) && i < |ss| && Quiescent(ss[i]) && |ss[i].workers| > 0
    requires j < |ss[i].accepted| && !Superseded(ss[i], j)
    ensures j in ss[i].started
  {
    RunKeepsInv(ss, steps, i);
    RunKeepsJobs(ss, steps, i);
    QuiescentMeansIdle(ss[i]);
    assert Kept(ss[i], j);
  }

  // --- The locked sections, in place --------------------------------------------------------------------------

  class Scheduler {
    var pending: map<Key, nat>
    var queue: seq<Key>
    var running: set<Key>

    ghost function Snapshot(s: State): State reads this {
      s.(pending := pending, queue := queue, running := running)
    }

    /** `rest` supplies the workers and the history, which this section does not touch. */
    method EnqueueIndex(key: Key, job: nat, ghost rest: State) returns (ok: bool)
      requires job == |rest.accepted|
      modifies this
      ensures ok == Accepts(old(Snapshot(rest)), key)
      ensures Snapshot(EnqueueNext(old(Snapshot(rest)), key)) == EnqueueNext(old(Snapshot(rest)), key)
    {
      if key in pending {
        pending := pending[key := job];
        return true;
      }
      if |pending| >= MAX_PENDING { return false; }
      var before := pending;
      pending := pending[key := job];
      if key in running { return true; }
      if |queue| < MAX_PENDING {
        queue := queue + [key];
        return true;
      }
      pending := before;
      return false;
    }

    method ClaimKey(key: Key, ghost s: State, ghost w: nat) returns (found: bool, job: nat)
      requires w < |s.workers| && s.workers[w] == Took(key) && Snapshot(s) == s
      modifies this
      ensures Snapshot(Next(s, Claim(w))) == Next(s, Claim(w))
      ensures Next(s, Claim(w)).workers[w] == if found then Claimed(key, job) else Idle
    {
      found, job := key in pending, 0;
      if found {
        job := pending[key];
        pending := pending - {key};
        running := running + {key};
      }
    }

    method ReleaseKey(key: Key, ghost s: State, ghost w: nat)
      requires Inv(s) && w < |s.workers| && s.workers[w] == Done(key) && Snapshot(s) == s
      modifies this
      ensures Enabled(s, Release(w)) && Snapshot(Next(s, Release(w))) == Next(s, Release(w))
    {
      ReleaseFindsRoom(s, w);
      running := running - {key};
      if key in pending { queue := queue + [key]; }
    }
  }
}

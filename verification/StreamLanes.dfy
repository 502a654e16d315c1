/**
 The session writer: one goroutine drains an urgent lane, an ordered control
 lane, a lane of replaceable latest-state frames and a bulk lane onto one
 connection. Each channel operation, locked section and poll is one step, so
 every interleaving of enqueuers and the writer is a run.
 */
module StreamLanes {
  import opened Reconcile

  type Frame = nat
  type Key = string

  datatype Lane = Urgent | Control | Bulk

  const LATEST_DEPTH := 64
  const MAX_BURST := 8

  function Depth(lane: Lane): nat {
    match lane
    case Urgent => 8
    case Control => 64
    case Bulk => 4
  }

  datatype Written = Ordered(lane: Lane, frame: Frame) | Latest(key: Key, latest: Frame)

  /** Where the writer's loop is. */
  datatype Phase =
    | AtUrgent            // about to poll the urgent lane
    | AtBurst             // about to give bulk its turn if control has had enough
    | AtSelect            // about to take whatever is ready
    | Holding(key: Key)   // took a latest-state key, not yet its frame

  datatype State = State(
    urgent: seq<Frame>,
    control: seq<Frame>,
    bulk: seq<Frame>,
    latest: seq<Key>,
    frames: map<Key, Frame>,
    waiting: Option<Key>,           // an enqueuer inside the lock, waiting for room
    writer: Phase,
    burst: nat,
    out: seq<Written>,
    accepted: map<Lane, seq<Frame>>,
    lastAccepted: map<Key, Frame>,
    passed: nat)                    // control and latest frames written while bulk stayed queued

  function Queue(s: State, lane: Lane): seq<Frame> {
    match lane
    case Urgent => s.urgent
    case Control => s.control
    case Bulk => s.bulk
  }

  function WithQueue(s: State, lane: Lane, q: seq<Frame>): State {
    match lane
    case Urgent => s.(urgent := q)
    case Control => s.(control := q)
    case Bulk => s.(bulk := q)
  }

  // --- The steps -------------------------------------------------------------------------------

  datatype Step =
    | Accept(lane: Lane, frame: Frame)
    | BeginLatest(key: Key, frame: Frame)
    | FinishLatest
    | CancelLatest
    | Poll
    | CheckBurst
    | Take(lane: Lane)
    | TakeLatest
    | PopLatest

  predicate Enabled(s: State, step: Step) {
    match step
    case Accept(lane, _) => |Queue(s, lane)| < Depth(lane)
    case BeginLatest(_, _) => s.waiting.None?
    case FinishLatest => s.waiting.Some? && |s.latest| < LATEST_DEPTH
    case CancelLatest => s.waiting.Some?
    case Poll => s.writer.AtUrgent?
    case CheckBurst => s.writer.AtBurst?
    case Take(lane) => s.writer.AtSelect? && Queue(s, lane) != []
    case TakeLatest => s.writer.AtSelect? && s.latest != []
    case PopLatest => s.writer.Holding? && s.waiting.None?
  }

  /** The frame at the head of an ordered lane goes out. */
  function Send(s: State, lane: Lane): State
    requires Queue(s, lane) != []
  {
    var q := Queue(s, lane);
    var burst := match lane case Urgent => s.burst case Control => s.burst + 1 case Bulk => 0;
    var s' := WithQueue(s, lane, q[1..]).(out := s.out + [Ordered(lane, q[0])], burst := burst, writer := AtUrgent);
    s'.(passed := if s'.bulk == [] || lane.Bulk? then 0 else if lane.Control? then s.passed + 1 else s.passed)
  }

  function Next(s: State, step: Step): State
    requires Enabled(s, step)
  {
    match step
    case Accept(lane, f) =>
      WithQueue(s, lane, Queue(s, lane) + [f]).(accepted := s.accepted[lane := AcceptedOn(s, lane) + [f]])
    case BeginLatest(key, f) =>
      if key in s.frames then s.(frames := s.frames[key := f], lastAccepted := s.lastAccepted[key := f])
      else s.(frames := s.frames[key := f], waiting := Some(key))
    case FinishLatest =>
      var key := s.waiting.value;
      s.(latest := s.latest + [key], waiting := None,
         lastAccepted := if key in s.frames then s.lastAccepted[key := s.frames[key]] else s.lastAccepted)
    case CancelLatest => s.(frames := s.frames - {s.waiting.value}, waiting := None)
    case Poll => if s.urgent != [] then Send(s, Urgent) else s.(writer := AtBurst)
    case CheckBurst => if s.burst >= MAX_BURST && s.bulk != [] then Send(s, Bulk) else s.(writer := AtSelect)
    case Take(lane) => Send(s, lane)
    case TakeLatest => s.(latest := s.latest[1..], writer := Holding(s.latest[0]))
    case PopLatest =>
      var key := s.writer.key;
      if key !in s.frames then s.(writer := AtUrgent)
      else s.(frames := s.frames - {key}, out := s.out + [Latest(key, s.frames[key])],
              burst := s.burst + 1, writer := AtUrgent,
              passed := if s.bulk == [] then 0 else s.passed + 1)
  }

  function AcceptedOn(s: State, lane: Lane): seq<Frame> {
    if lane in s.accepted then s.accepted[lane] else []
  }

  const EMPTY := State([], [], [], [], map[], None, AtUrgent, 0, [], map[], map[], 0)

  ghost predicate IsRun(ss: seq<State>, steps: seq<Step>) {
    && |ss| == |steps| + 1
    && ss[0] == EMPTY
    && forall i :: 0 <= i < |steps| ==> StepAt(ss, steps, i)
  }

  ghost predicate StepAt(ss: seq<State>, steps: seq<Step>, i: nat)
    requires i < |steps| < |ss|
  {
    Enabled(ss[i], steps[i]) && ss[i + 1] == Next(ss[i], steps[i])
  }

  // --- Ordered lanes -----------------------------------------------------------------------------

  /** What has been written from one ordered lane. */
  function SentOn(out: seq<Written>, lane: Lane): seq<Frame> {
    if out == [] then []
    else
      var n := |out| - 1;
      SentOn(out[..n], lane) + if out[n].Ordered? && out[n].lane == lane then [out[n].frame] else []
  }

  lemma SentOnStep(out: seq<Written>, w: Written, lane: Lane)
    ensures SentOn(out + [w], lane) == SentOn(out, lane) + if w.Ordered? && w.lane == lane then [w.frame] else []
  {
    assert (out + [w])[..|out|] == out;
  }

  ghost predicate Fifo(s: State, lane: Lane) {
    AcceptedOn(s, lane) == SentOn(s.out, lane) + Queue(s, lane)
  }

  lemma SendEffect(s: State, from: Lane)
    requires Queue(s, from) != []
    ensures var s' := Send(s, from);
            && s'.accepted == s.accepted && s'.out == s.out + [Ordered(from, Queue(s, from)[0])]
            && forall lane :: Queue(s', lane) == if lane == from then Queue(s, from)[1..] else Queue(s, lane)
  {
  }

  lemma HeadMoves(accepted: seq<Frame>, sent: seq<Frame>, q: seq<Frame>)
    requires q != [] && accepted == sent + q
    ensures accepted == (sent + [q[0]]) + q[1..]
  {
  }

  lemma {:induction false} SendKeepsFifo(s: State, from: Lane, lane: Lane)
    requires Queue(s, from) != [] && Fifo(s, lane)
    ensures Fifo(Send(s, from), lane)
  {
    var q := Queue(s, from);
    SendEffect(s, from);
    SentOnStep(s.out, Ordered(from, q[0]), lane);
    if from == lane {
      HeadMoves(AcceptedOn(s, lane), SentOn(s.out, lane), q);
    } else {
      assert SentOn(s.out, lane) + [] == SentOn(s.out, lane);
    }
  }

  lemma {:induction false} AcceptKeepsFifo(s: State, to: Lane, f: Frame, lane: Lane)
    requires Enabled(s, Accept(to, f)) && Fifo(s, lane)
    ensures Fifo(Next(s, Accept(to, f)), lane)
  {
    var s' := Next(s, Accept(to, f));
    assert s'.out == s.out;
    assert Queue(s', lane) == if to == lane then Queue(s, lane) + [f] else Queue(s, lane);
    assert AcceptedOn(s', lane) == if to == lane then AcceptedOn(s, lane) + [f] else AcceptedOn(s, lane);
  }

  lemma {:induction false} PopKeepsFifo(s: State, lane: Lane)
    requires Enabled(s, PopLatest) && Fifo(s, lane)
    ensures Fifo(Next(s, PopLatest), lane)
  {
    var key := s.writer.key;
    if key in s.frames {
      SentOnStep(s.out, Latest(key, s.frames[key]), lane);
      assert SentOn(s.out, lane) + [] == SentOn(s.out, lane);
    }
  }

  lemma {:induction false} QuietKeepsFifo(s: State, step: Step, lane: Lane)
    requires Fifo(s, lane) && Enabled(s, step)
    requires match step
             case Poll => s.urgent == []
             case CheckBurst => s.burst < MAX_BURST || s.bulk == []
             case _ => step.BeginLatest? || step.FinishLatest? || step.CancelLatest? || step.TakeLatest?
    ensures Fifo(Next(s, step), lane)
  {
    var s' := Next(s, step);
    assert s'.out == s.out && s'.accepted == s.accepted && s'.urgent == s.urgent && s'.control == s.control && s'.bulk == s.bulk;
  }

  lemma StepKeepsFifo(s: State, step: Step, lane: Lane)
    requires Fifo(s, lane) && Enabled(s, step)
    ensures Fifo(Next(s, step), lane)
  {
    if step.Accept? {
      AcceptKeepsFifo(s, step.lane, step.frame, lane);
    } else if step.PopLatest? {
      PopKeepsFifo(s, lane);
    } else if step.Poll? && s.urgent != [] {
      SendKeepsFifo(s, Urgent, lane);
    } else if step.CheckBurst? && s.burst >= MAX_BURST && s.bulk != [] {
      SendKeepsFifo(s, Bulk, lane);
    } else if step.Take? {
      SendKeepsFifo(s, step.lane, lane);
    } else {
      QuietKeepsFifo(s, step, lane);
    }
  }

  /** In every run, what each ordered lane has written is a prefix of what it accepted, and the rest is still queued. */
  lemma {:induction false} OrderedLanesAreFifo(ss: seq<State>, steps: seq<Step>, i: nat, lane: Lane)
    requires IsRun(ss, steps) && i < |ss|
    ensures AcceptedOn(ss[i], lane) == SentOn(ss[i].out, lane) + Queue(ss[i], lane)
  {
    if i > 0 {
      assert StepAt(ss, steps, i - 1);
      OrderedLanesAreFifo(ss, steps, i - 1, lane);
      StepKeepsFifo(ss[i - 1], steps[i - 1], lane);
    }
  }

  // --- The latest-state lane -------------------------------------------------------------------------

  ghost predicate DistinctKeys(q: seq<Key>) {
    forall i, j :: 0 <= i < j < |q| ==> q[i] != q[j]
  }

  predicate InHand(s: State, k: Key) { s.writer == Holding(k) }

  /** The pending frames are those of the queued keys, the writer's key and the waiting key, all different. */
  ghost predicate KeysAgree(s: State) {
    && DistinctKeys(s.latest)
    && |s.latest| <= LATEST_DEPTH
    && (forall k :: k in s.frames <==> k in s.latest || InHand(s, k) || s.waiting == Some(k))
    && (forall k :: InHand(s, k) ==> k !in s.latest && s.waiting != Some(k))
    && (forall k :: s.waiting == Some(k) ==> k !in s.latest)
  }

  function LastSent(out: seq<Written>, k: Key): Option<Frame> {
    if out == [] then None
    else
      var n := |out| - 1;
      if out[n].Latest? && out[n].key == k then Some(out[n].latest) else LastSent(out[..n], k)
  }

  lemma LastSentStep(out: seq<Written>, w: Written, k: Key)
    ensures LastSent(out + [w], k) == if w.Latest? && w.key == k then Some(w.latest) else LastSent(out, k)
  {
    assert (out + [w])[..|out|] == out;
  }

  /** The last frame accepted for a key is pending, or is the last one written. */
  ghost predicate NewestWins(s: State, k: Key) {
    if k in s.lastAccepted
    then if k in s.frames && s.waiting != Some(k) then s.frames[k] == s.lastAccepted[k] else LastSent(s.out, k) == Some(s.lastAccepted[k])
    else LastSent(s.out, k) == None && (k in s.frames ==> s.waiting == Some(k))
  }

  /** A step that touches neither the lane, nor its frames, nor who holds what. */
  lemma SameKeys(s: State, s': State)
    requires KeysAgree(s) && s'.latest == s.latest && s'.frames.Keys == s.frames.Keys && s'.waiting == s.waiting
    requires s.writer.Holding? || s'.writer.Holding? ==> s'.writer == s.writer
    ensures KeysAgree(s')
  {
    assert forall k :: k in s'.frames <==> k in s.frames;
    assert forall k :: InHand(s', k) <==> InHand(s, k);
  }

  lemma BeginKeepsKeys(s: State, key: Key, f: Frame)
    requires KeysAgree(s) && Enabled(s, BeginLatest(key, f))
    ensures KeysAgree(Next(s, BeginLatest(key, f)))
  {
    var s' := Next(s, BeginLatest(key, f));
    assert forall k :: InHand(s', k) <==> InHand(s, k);
    assert key in s.frames <==> key in s.latest || InHand(s, key);
  }

  lemma FinishKeepsKeys(s: State)
    requires KeysAgree(s) && Enabled(s, FinishLatest)
    ensures KeysAgree(Next(s, FinishLatest))
  {
    var s' := Next(s, FinishLatest);
    assert forall k :: InHand(s', k) <==> InHand(s, k);
  }

  lemma TakeKeepsKeys(s: State)
    requires KeysAgree(s) && Enabled(s, TakeLatest)
    ensures KeysAgree(Next(s, TakeLatest))
  {
    assert s.latest == [s.latest[0]] + s.latest[1..];
    assert s.latest[0] in s.latest;
  }

  lemma PopKeepsKeys(s: State)
    requires KeysAgree(s) && Enabled(s, PopLatest)
    ensures KeysAgree(Next(s, PopLatest))
  {
    assert InHand(s, s.writer.key);
  }

  lemma StepKeepsKeys(s: State, step: Step)
    requires KeysAgree(s) && Enabled(s, step)
    ensures KeysAgree(Next(s, step))
  {
    match step
    case BeginLatest(key, f) => BeginKeepsKeys(s, key, f);
    case FinishLatest => FinishKeepsKeys(s);
    case CancelLatest => assert forall k :: InHand(Next(s, step), k) <==> InHand(s, k);
    case TakeLatest => TakeKeepsKeys(s);
    case PopLatest => PopKeepsKeys(s);
    case _ => SameKeys(s, Next(s, step));
  }

  lemma {:induction false} SendKeepsNewest(s: State, lane: Lane, k: Key)
    requires Queue(s, lane) != [] && NewestWins(s, k)
    ensures NewestWins(Send(s, lane), k)
  {
    SendEffect(s, lane);
    LastSentStep(s.out, Ordered(lane, Queue(s, lane)[0]), k);
  }

  lemma {:induction false} PopKeepsNewest(s: State, k: Key)
    requires KeysAgree(s) && NewestWins(s, k) && Enabled(s, PopLatest)
    ensures NewestWins(Next(s, PopLatest), k)
  {
    var key := s.writer.key;
    assert InHand(s, key);
    var s' := Next(s, PopLatest);
    if key in s.frames {
      LastSentStep(s.out, Latest(key, s.frames[key]), k);
      assert LastSent(s'.out, k) == if key == k then Some(s.frames[key]) else LastSent(s.out, k);
    }
  }

  lemma {:induction false} LatestKeepsNewest(s: State, step: Step, k: Key)
    requires KeysAgree(s) && NewestWins(s, k) && Enabled(s, step)
    requires step.BeginLatest? || step.FinishLatest? || step.CancelLatest?
    ensures NewestWins(Next(s, step), k)
  {
  }

  lemma StepKeepsNewest(s: State, step: Step, k: Key)
    requires KeysAgree(s) && NewestWins(s, k) && Enabled(s, step)
    ensures NewestWins(Next(s, step), k)
  {
    if step.Poll? && s.urgent != [] {
      SendKeepsNewest(s, Urgent, k);
    } else if step.CheckBurst? && s.burst >= MAX_BURST && s.bulk != [] {
      SendKeepsNewest(s, Bulk, k);
    } else if step.Take? {
      SendKeepsNewest(s, step.lane, k);
    } else if step.PopLatest? {
      PopKeepsNewest(s, k);
    } else if step.BeginLatest? || step.FinishLatest? || step.CancelLatest? {
      LatestKeepsNewest(s, step, k);
    }
  }

  lemma {:induction false} RunKeepsKeys(ss: seq<State>, steps: seq<Step>, i: nat)
    requires IsRun(ss, steps) && i < |ss|
    ensures KeysAgree(ss[i])
  {
    if i > 0 {
      assert StepAt(ss, steps, i - 1);
      RunKeepsKeys(ss, steps, i - 1);
      StepKeepsKeys(ss[i - 1], steps[i - 1]);
    }
  }

  lemma {:induction false} RunKeepsNewest(ss: seq<State>, steps: seq<Step>, i: nat, k: Key)
    requires IsRun(ss, steps) && i < |ss|
    ensures NewestWins(ss[i], k)
  {
    if i > 0 {
      assert StepAt(ss, steps, i - 1);
      RunKeepsNewest(ss, steps, i - 1, k);
      RunKeepsKeys(ss, steps, i - 1);
      StepKeepsNewest(ss[i - 1], steps[i - 1], k);
    }
  }

  /**
   In every run: a key the writer takes always finds its frame, and for a key
   with nothing pending the last frame written is the last one accepted.
   */
  lemma LatestLaneDeliversTheNewest(ss: seq<State>, steps: seq<Step>, i: nat, k: Key)
    requires IsRun(ss, steps) && i < |ss|
    ensures ss[i].writer == Holding(k) ==> k in ss[i].frames && k in ss[i].lastAccepted && ss[i].frames[k] == ss[i].lastAccepted[k]
    ensures k in ss[i].lastAccepted && k !in ss[i].frames ==> LastSent(ss[i].out, k) == Some(ss[i].lastAccepted[k])
  {
    RunKeepsKeys(ss, steps, i);
    RunKeepsNewest(ss, steps, i, k);
  }

  // --- Bulk is not starved ----------------------------------------------------------------------------

  predicate PassOk(s: State) {
    && s.passed <= MAX_BURST && s.passed <= s.burst
    && (s.bulk == [] ==> s.passed == 0)
    && ((s.writer.AtSelect? || s.writer.Holding?) && s.burst >= MAX_BURST ==> s.passed == 0)
  }

  lemma StepKeepsPass(s: State, step: Step)
    requires PassOk(s) && Enabled(s, step)
    ensures PassOk(Next(s, step))
  {
  }

  lemma {:induction false} RunKeepsPass(ss: seq<State>, steps: seq<Step>, i: nat)
    requires IsRun(ss, steps) && i < |ss|
    ensures PassOk(ss[i])
  {
    if i > 0 {
      assert StepAt(ss, steps, i - 1);
      RunKeepsPass(ss, steps, i - 1);
      StepKeepsPass(ss[i - 1], steps[i - 1]);
    }
  }

  predicate IsBulk(w: Written) { w.Ordered? && w.lane.Bulk? }

  predicate IsControl(w: Written) { w.Latest? || w.lane.Control? }

  /** Where control and latest frames were written from position `from` on. */
  ghost function ControlAt(out: seq<Written>, from: nat): set<nat> {
    set n: nat | from <= n < |out| && (out[n].Latest? || out[n].lane.Control?)
  }

  function ControlCount(out: seq<Written>, from: nat): (c: nat)
    ensures c == |ControlAt(out, from)|
  {
    if |out| <= from then 0
    else
      var n := |out| - 1;
      assert ControlAt(out, from) == ControlAt(out[..n], from) + if IsControl(out[n]) then {n} else {};
      ControlCount(out[..n], from) + if IsControl(out[n]) then 1 else 0
  }

  lemma StepWritesAtMostOne(s: State, step: Step)
    requires Enabled(s, step)
    ensures var s' := Next(s, step);
            || s'.out == s.out
            || (exists w :: s'.out == s.out + [w])
    ensures var s' := Next(s, step);
            s.bulk != [] && s'.bulk != [] ==>
              if s'.out == s.out then s'.passed == s.passed
              else
                var w := s'.out[|s.out|];
                s'.passed == if IsBulk(w) then 0 else if IsControl(w) then s.passed + 1 else s.passed
  {
  }

  ghost predicate NoBulkSince(out: seq<Written>, from: nat) {
    forall n :: from <= n < |out| ==> !IsBulk(out[n])
  }

  lemma PassedStep(s: State, step: Step, from: nat)
    requires Enabled(s, step) && from <= |s.out| && s.bulk != [] && Next(s, step).bulk != []
    requires NoBulkSince(Next(s, step).out, from)
    ensures NoBulkSince(s.out, from)
    ensures ControlCount(s.out, from) <= s.passed ==> ControlCount(Next(s, step).out, from) <= Next(s, step).passed
  {
    var s' := Next(s, step);
    StepWritesAtMostOne(s, step);
    assert forall n :: 0 <= n < |s.out| ==> s.out[n] == s'.out[n];
    if s'.out != s.out { assert s'.out[..|s.out|] == s.out; }
  }

  /** While bulk stays queued and none of it goes out, the frames that overtake it are counted by `passed`. */
  lemma {:induction false} PassedCounts(ss: seq<State>, steps: seq<Step>, i: nat, j: nat)
    requires IsRun(ss, steps) && i <= j < |ss|
    requires forall k :: i <= k <= j ==> ss[k].bulk != []
    requires NoBulkSince(ss[j].out, |ss[i].out|)
    ensures ControlCount(ss[j].out, |ss[i].out|) <= ss[j].passed
    decreases j
  {
    if i < j {
      assert StepAt(ss, steps, j - 1);
      OutGrows(ss, steps, i, j - 1);
      PassedStep(ss[j - 1], steps[j - 1], |ss[i].out|);
      PassedCounts(ss, steps, i, j - 1);
    }
  }

  lemma {:induction false} OutGrows(ss: seq<State>, steps: seq<Step>, i: nat, j: nat)
    requires IsRun(ss, steps) && i <= j < |ss|
    ensures ss[i].out <= ss[j].out
    decreases j
  {
    if i < j {
      assert StepAt(ss, steps, j - 1);
      OutGrows(ss, steps, i, j - 1);
      StepWritesAtMostOne(ss[j - 1], steps[j - 1]);
    }
  }

  // --- Urgent frames go first -----------------------------------------------------------------------

  ghost predicate NoUrgentSince(out: seq<Written>, from: nat) {
    forall n :: from <= n < |out| ==> !(out[n].Ordered? && out[n].lane.Urgent?)
  }

  lemma PollSendsUrgent(s: State)
    requires s.writer.AtUrgent? && s.urgent != []
    ensures Next(s, Poll).out == s.out + [Ordered(Urgent, s.urgent[0])]
    ensures Next(s, Poll).out[|s.out|] == Ordered(Urgent, s.urgent[0])
  {
  }

  lemma UrgentStep(s: State, step: Step, from: nat)
    requires Enabled(s, step) && from <= |s.out| <= from + 1 && s.urgent != [] && (|s.out| == from + 1 ==> s.writer.AtUrgent?)
    requires NoUrgentSince(Next(s, step).out, from)
    ensures var s' := Next(s, step); |s.out| <= |s'.out| <= from + 1 && (|s'.out| == from + 1 ==> s'.writer.AtUrgent?)
  {
    if step.Poll? { PollSendsUrgent(s); }
  }

  /** In every run, while an urgent frame is queued at most one other frame goes out before the next urgent one. */
  lemma {:induction false} UrgentGoesFirst(ss: seq<State>, steps: seq<Step>, i: nat, j: nat)
    requires IsRun(ss, steps) && i <= j < |ss|
    requires forall k :: i <= k <= j ==> ss[k].urgent != []
    requires NoUrgentSince(ss[j].out, |ss[i].out|)
    ensures |ss[i].out| <= |ss[j].out| <= |ss[i].out| + 1
    ensures |ss[j].out| == |ss[i].out| + 1 ==> ss[j].writer.AtUrgent?
    decreases j
  {
    if i < j {
      assert StepAt(ss, steps, j - 1);
      OutGrows(ss, steps, j - 1, j);
      assert forall n :: 0 <= n < |ss[j - 1].out| ==> ss[j - 1].out[n] == ss[j].out[n];
      UrgentGoesFirst(ss, steps, i, j - 1);
      UrgentStep(ss[j - 1], steps[j - 1], |ss[i].out|);
    }
  }

  /** In every run the lanes hold at most 8 urgent, 64 control and 4 bulk frames and 64 latest-state keys. */
  lemma {:induction false} LanesAreBounded(ss: seq<State>, steps: seq<Step>, i: nat)
    requires IsRun(ss, steps) && i < |ss|
    ensures |ss[i].urgent| <= 8 && |ss[i].control| <= 64 && |ss[i].bulk| <= 4 && |ss[i].latest| <= 64
  {
    if i > 0 {
      assert StepAt(ss, steps, i - 1);
      LanesAreBounded(ss, steps, i - 1);
    }
  }

  /** In every run, while bulk stays queued at most 8 control and latest frames go out before the next bulk frame. */
  lemma BulkIsNotStarved(ss: seq<State>, steps: seq<Step>, i: nat, j: nat)
    requires IsRun(ss, steps) && i <= j < |ss|
    requires forall k :: i <= k <= j ==> ss[k].bulk != []
    requires forall n :: |ss[i].out| <= n < |ss[j].out| ==> !IsBulk(ss[j].out[n])
    ensures ss[i].out <= ss[j].out && ControlCount(ss[j].out, |ss[i].out|) <= 8
  {
    OutGrows(ss, steps, i, j);
    PassedCounts(ss, steps, i, j);
    RunKeepsPass(ss, steps, j);
  }

  // --- When the writer can be stuck ----------------------------------------------------------------------

  /** The writer needs the lock; an enqueuer has it and waits for room that only the writer can make. */
  predicate Stuck(s: State) {
    s.writer.Holding? && s.waiting.Some? && |s.latest| == LATEST_DEPTH
  }

  /** No step but giving up gets out, and the writer takes none. */
  lemma StuckStaysStuck(s: State, step: Step)
    requires Stuck(s) && Enabled(s, step) && !step.CancelLatest?
    ensures step.Accept? && Stuck(Next(s, step)) && Next(s, step).out == s.out
  {
  }

  ghost predicate UsesOnly(steps: seq<Step>, keys: set<Key>) {
    forall i :: 0 <= i < |steps| && steps[i].BeginLatest? ==> steps[i].key in keys
  }

  lemma {:induction false} PendingKeysAreUsed(ss: seq<State>, steps: seq<Step>, i: nat, keys: set<Key>)
    requires IsRun(ss, steps) && i < |ss| && UsesOnly(steps, keys)
    ensures ss[i].frames.Keys <= keys
  {
    if i > 0 {
      assert StepAt(ss, steps, i - 1);
      PendingKeysAreUsed(ss, steps, i - 1, keys);
    }
  }

  lemma DistinctFit(q: seq<Key>, keys: set<Key>)
    requires DistinctKeys(q) && forall i :: 0 <= i < |q| ==> q[i] in keys
    ensures |q| <= |keys|
  {
    if q != [] {
      DistinctFit(q[1..], keys - {q[0]});
    }
  }

  /** With no more than 65 different keys the writer is never stuck. */
  lemma FewKeysNeverStick(ss: seq<State>, steps: seq<Step>, i: nat, keys: set<Key>)
    requires IsRun(ss, steps) && i < |ss| && UsesOnly(steps, keys) && |keys| <= LATEST_DEPTH + 1
    ensures !Stuck(ss[i])
  {
    var s := ss[i];
    RunKeepsKeys(ss, steps, i);
    PendingKeysAreUsed(ss, steps, i, keys);
    if s.writer.Holding? && s.waiting.Some? {
      var a, b := s.writer.key, s.waiting.value;
      assert InHand(s, a) && a in s.frames && b in s.frames;
      forall n | 0 <= n < |s.latest| ensures s.latest[n] in keys - {a} - {b} { assert s.latest[n] in s.frames; }
      DistinctFit(s.latest, keys - {a} - {b});
    }
  }

  /** A state in which only the given keys have been announced, with nothing else going on. */
  ghost predicate Announced(s: State, ks: seq<Key>, writer: Phase) {
    && s.latest == ks && s.waiting == None && s.writer == writer && s.urgent == [] && s.bulk == [] && s.burst == 0
    && forall k :: k in s.frames <==> k in ks || writer == Holding(k)
  }

  lemma Extend(ss: seq<State>, steps: seq<Step>, step: Step)
    requires IsRun(ss, steps) && Enabled(ss[|ss| - 1], step)
    ensures IsRun(ss + [Next(ss[|ss| - 1], step)], steps + [step])
  {
    var ss', steps' := ss + [Next(ss[|ss| - 1], step)], steps + [step];
    forall i | 0 <= i < |steps'| ensures StepAt(ss', steps', i) {
      if i < |steps| { assert StepAt(ss, steps, i); }
    }
  }

  lemma Announce(ss0: seq<State>, steps0: seq<Step>, ks: seq<Key>, key: Key, keys: set<Key>)
    returns (ss: seq<State>, steps: seq<Step>)
    requires IsRun(ss0, steps0) && UsesOnly(steps0, keys) && key in keys && key !in ks && |ks| < LATEST_DEPTH
    requires var s := ss0[|ss0| - 1]; Announced(s, ks, s.writer) && s.writer != Holding(key)
    ensures IsRun(ss, steps) && UsesOnly(steps, keys) && Announced(ss[|ss| - 1], ks + [key], ss0[|ss0| - 1].writer)
  {
    var s0, step := ss0[|ss0| - 1], BeginLatest(key, 0);
    var s1 := Next(s0, step);
    Extend(ss0, steps0, step);
    ss, steps := ss0 + [s1], steps0 + [step];
    Extend(ss, steps, FinishLatest);
    ss, steps := ss + [Next(s1, FinishLatest)], steps + [FinishLatest];
  }

  lemma {:induction false} AnnounceAll(ks: seq<Key>, n: nat, keys: set<Key>) returns (ss: seq<State>, steps: seq<Step>)
    requires n <= |ks| && n <= LATEST_DEPTH && DistinctKeys(ks) && forall i :: 0 <= i < |ks| ==> ks[i] in keys
    ensures IsRun(ss, steps) && UsesOnly(steps, keys) && Announced(ss[|ss| - 1], ks[..n], AtUrgent)
  {
    if n == 0 {
      ss, steps := [EMPTY], [];
      assert ks[..0] == [];
    } else {
      ss, steps := AnnounceAll(ks, n - 1, keys);
      ss, steps := Announce(ss, steps, ks[..n - 1], ks[n - 1], keys);
      assert ks[..n - 1] + [ks[n - 1]] == ks[..n];
    }
  }

  /** The writer takes the first key and is about to look up its frame. */
  lemma TakeFirst(ss0: seq<State>, steps0: seq<Step>, ks: seq<Key>, keys: set<Key>) returns (ss: seq<State>, steps: seq<Step>)
    requires IsRun(ss0, steps0) && UsesOnly(steps0, keys) && ks != [] && Announced(ss0[|ss0| - 1], ks, AtUrgent)
    ensures IsRun(ss, steps) && UsesOnly(steps, keys) && Announced(ss[|ss| - 1], ks[1..], Holding(ks[0]))
  {
    var s0 := ss0[|ss0| - 1];
    Extend(ss0, steps0, Poll);
    var s1 := Next(s0, Poll);
    ss, steps := ss0 + [s1], steps0 + [Poll];
    Extend(ss, steps, CheckBurst);
    var s2 := Next(s1, CheckBurst);
    ss, steps := ss + [s2], steps + [CheckBurst];
    Extend(ss, steps, TakeLatest);
    ss, steps := ss + [Next(s2, TakeLatest)], steps + [TakeLatest];
    assert ks == [ks[0]] + ks[1..];
  }

  lemma Enumerate(keys: set<Key>) returns (ks: seq<Key>)
    ensures |ks| == |keys| && DistinctKeys(ks) && forall i :: 0 <= i < |ks| ==> ks[i] in keys
    decreases |keys|
  {
    if keys == {} {
      ks := [];
    } else {
      var k :| k in keys;
      var rest := Enumerate(keys - {k});
      ks := [k] + rest;
    }
  }

  /** With 66 different keys some interleaving does get the writer stuck. */
  lemma ManyKeysCanStick(keys: set<Key>) returns (ss: seq<State>, steps: seq<Step>)
    requires |keys| >= LATEST_DEPTH + 2
    ensures IsRun(ss, steps) && UsesOnly(steps, keys) && Stuck(ss[|ss| - 1])
  {
    var ks := Enumerate(keys);
    var head, extra, last := ks[..LATEST_DEPTH], ks[LATEST_DEPTH], ks[LATEST_DEPTH + 1];
    ss, steps := AnnounceAll(ks, LATEST_DEPTH, keys);
    ss, steps := TakeFirst(ss, steps, head, keys);
    assert head[0] == ks[0];
    ss, steps := Announce(ss, steps, head[1..], extra, keys);
    var s, step := ss[|ss| - 1], BeginLatest(last, 0);
    assert last !in s.frames;
    Extend(ss, steps, step);
    ss, steps := ss + [Next(s, step)], steps + [step];
  }
}

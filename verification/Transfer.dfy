/**
 File transfers interleaved on one stream. A serving node reads a file in
 chunks and queues them on the bulk lane; an error takes the urgent lane and may
 overtake them. The pulling node routes frames by transfer id to the pull that
 waits for them. Every interleaving of any number of transfers is a run.
 */
module Transfer {
  import opened Vectors
  import opened Reconcile

  type Id = string
  type Bytes = seq<Byte>

  const QUEUE_DEPTH := 2

  datatype Request = Request(share: string, relpath: string, version: Vector)

  datatype Chunk =
    | Data(offset: nat, data: Bytes)
    | Eof(offset: nat)
    | Failure

  /** A frame carries the identity of the request it answers. */
  datatype Frame = Frame(id: Id, request: Request, chunk: Chunk)

  /** The serving side of one request: what it read and sent, and whether it queued its last frame. */
  datatype Served = Served(version: Vector, sent: Bytes, terminal: bool)

  datatype Status = Active | Succeeded | Failed

  datatype Pull = Pull(request: Request, size: nat, written: Bytes, inbox: seq<Frame>, status: Status)

  datatype World = World(
    content: map<Id, Bytes>,        // the indexed content each request asks for
    served: map<Id, Served>,
    pulls: map<Id, Pull>,
    bulk: seq<Frame>,
    urgent: seq<Frame>,
    violations: nat,                // frames a pull refused as not its own
    queued: seq<Frame>)             // every frame ever queued

  datatype Step =
    | Start(id: Id, request: Request, size: nat, rowVersion: Vector, content: Bytes)
    | Send(id: Id, data: Bytes)
    | Finish(id: Id)
    | Fail(id: Id)
    | DeliverBulk
    | DeliverUrgent
    | Consume(id: Id, accepted: nat)  // the disk takes this many bytes of a chunk
    | GiveUp(id: Id)

  // --- The serving side ------------------------------------------------------------------------

  function HeaderOf(w: World, id: Id): Request
    requires id in w.served && id in w.pulls
  {
    w.pulls[id].request.(version := w.served[id].version)
  }

  function QueueChunk(w: World, id: Id, c: Chunk): World
    requires id in w.served && id in w.pulls
  {
    var f := Frame(id, HeaderOf(w, id), c);
    if c.Failure? then w.(urgent := w.urgent + [f], queued := w.queued + [f])
    else w.(bulk := w.bulk + [f], queued := w.queued + [f])
  }

  // --- The pulling side --------------------------------------------------------------------------

  /** A frame for a pull that is not waiting is dropped. */
  predicate Waiting(w: World, id: Id) { id in w.pulls && w.pulls[id].status.Active? }

  predicate HasRoom(w: World, f: Frame) { Waiting(w, f.id) ==> |w.pulls[f.id].inbox| < QUEUE_DEPTH }

  function Route(w: World, f: Frame): World {
    if Waiting(w, f.id) then w.(pulls := w.pulls[f.id := w.pulls[f.id].(inbox := w.pulls[f.id].inbox + [f])]) else w
  }

  predicate OwnChunk(p: Pull, f: Frame) {
    && f.request.share == p.request.share && f.request.relpath == p.request.relpath
    && Equal(f.request.version, p.request.version)
    && (f.chunk.Failure? || f.chunk.offset == |p.written|)
  }

  function ConsumeOne(p: Pull, accepted: nat): (r: Pull)
    requires p.inbox != []
  {
    var f, rest := p.inbox[0], p.(inbox := p.inbox[1..]);
    if f.chunk.Failure? || !OwnChunk(p, f) then rest.(status := Failed)
    else match f.chunk
      case Data(_, data) =>
        if accepted >= |data| then rest.(written := p.written + data)
        else rest.(written := p.written + data[..accepted], status := Failed)
      case Eof(_) => rest.(status := if |p.written| == p.size then Succeeded else Failed)
  }

  // --- Steps ----------------------------------------------------------------------------------------

  ghost predicate Enabled(w: World, s: Step) {
    match s
    case Start(id, request, _, rowVersion, _) => id !in w.pulls && id !in w.served && Equal(rowVersion, request.version)
    case Send(id, data) => id in w.served && id in w.pulls && !w.served[id].terminal && data != []
    case Finish(id) =>
      // The digest of everything read matches the indexed row.
      id in w.served && id in w.pulls && id in w.content && !w.served[id].terminal && w.served[id].sent == w.content[id]
    case Fail(id) => id in w.served && id in w.pulls && !w.served[id].terminal
    case DeliverBulk => w.bulk != [] && HasRoom(w, w.bulk[0])
    case DeliverUrgent => w.urgent != [] && HasRoom(w, w.urgent[0])
    case Consume(id, _) => Waiting(w, id) && w.pulls[id].inbox != []
    case GiveUp(id) => Waiting(w, id)
  }

  ghost function Next(w: World, s: Step): World
    requires Enabled(w, s)
  {
    match s
    case Start(id, request, size, rowVersion, content) =>
      w.(content := w.content[id := content],
         served := w.served[id := Served(rowVersion, [], false)],
         pulls := w.pulls[id := Pull.Pull(request, size, [], [], Active)])
    case Send(id, data) =>
      var sv := w.served[id];
      QueueChunk(w, id, Data(|sv.sent|, data)).(served := w.served[id := sv.(sent := sv.sent + data)])
    case Finish(id) =>
      QueueChunk(w, id, Eof(|w.served[id].sent|)).(served := w.served[id := w.served[id].(terminal := true)])
    case Fail(id) => QueueChunk(w, id, Failure).(served := w.served[id := w.served[id].(terminal := true)])
    case DeliverBulk => Route(w.(bulk := w.bulk[1..]), w.bulk[0])
    case DeliverUrgent => Route(w.(urgent := w.urgent[1..]), w.urgent[0])
    case Consume(id, accepted) =>
      var p := w.pulls[id];
      w.(pulls := w.pulls[id := ConsumeOne(p, accepted)],
         violations := w.violations + if !p.inbox[0].chunk.Failure? && !OwnChunk(p, p.inbox[0]) then 1 else 0)
    case GiveUp(id) => w.(pulls := w.pulls[id := w.pulls[id].(status := Failed)])
  }

  const IDLE := World(map[], map[], map[], [], [], 0, [])

  ghost predicate IsRun(ws: seq<World>, steps: seq<Step>) {
    && |ws| == |steps| + 1 && ws[0] == IDLE
    && forall i :: 0 <= i < |steps| ==> StepAt(ws, steps, i)
  }

  ghost predicate StepAt(ws: seq<World>, steps: seq<Step>, i: nat)
    requires i < |steps| < |ws|
  {
    Enabled(ws[i], steps[i]) && ws[i + 1] == Next(ws[i], steps[i])
  }

  // --- One transfer's frames in flight -----------------------------------------------------------------

  function Of(frames: seq<Frame>, id: Id): (r: seq<Frame>)
    ensures forall i :: 0 <= i < |r| ==> r[i].id == id && r[i] in frames
  {
    if frames == [] then [] else (if frames[0].id == id then [frames[0]] else []) + Of(frames[1..], id)
  }

  lemma {:induction false} OfAppend(frames: seq<Frame>, f: Frame, id: Id)
    ensures Of(frames + [f], id) == Of(frames, id) + if f.id == id then [f] else []
  {
    if frames == [] {
      assert frames + [f] == [f] && [f][1..] == [];
    } else {
      assert (frames + [f])[1..] == frames[1..] + [f] && (frames + [f])[0] == frames[0];
      OfAppend(frames[1..], f, id);
      var head := if frames[0].id == id then [frames[0]] else [];
      assert head + (Of(frames[1..], id) + if f.id == id then [f] else []) == (head + Of(frames[1..], id)) + if f.id == id then [f] else [];
    }
  }

  lemma OfHead(frames: seq<Frame>, id: Id)
    requires frames != []
    ensures Of(frames, id) == if frames[0].id == id then [frames[0]] + Of(frames[1..], id) else Of(frames[1..], id)
  {
  }

  /**
   The frames continue what has been written, in order and without a gap, up to
   everything the server has sent; an end marker comes only after the whole
   content of a finished response.
   */
  predicate Continues(frames: seq<Frame>, header: Request, written: Bytes, sent: Bytes, terminal: bool, content: Bytes)
    decreases |frames|
  {
    if frames == [] then written == sent
    else
      var f := frames[0];
      && f.request == header
      && match f.chunk
         case Data(offset, data) => offset == |written| && data != [] && Continues(frames[1..], header, written + data, sent, terminal, content)
         case Eof(offset) => offset == |written| && terminal && written == sent == content && Continues(frames[1..], header, written, sent, terminal, content)
         case Failure => Continues(frames[1..], header, written, sent, terminal, content)
  }

  lemma {:induction false} SendContinues(frames: seq<Frame>, header: Request, written: Bytes, sent: Bytes, content: Bytes, f: Frame, data: Bytes)
    requires Continues(frames, header, written, sent, false, content) && data != []
    requires f.request == header && f.chunk == Data(|sent|, data)
    ensures Continues(frames + [f], header, written, sent + data, false, content)
    decreases |frames|
  {
    if frames == [] {
      assert (frames + [f])[1..] == [];
    } else {
      var c := frames[0].chunk;
      assert (frames + [f])[1..] == frames[1..] + [f];
      SendContinues(frames[1..], header, if c.Data? then written + c.data else written, sent, content, f, data);
    }
  }

  lemma {:induction false} CloseContinues(frames: seq<Frame>, header: Request, written: Bytes, sent: Bytes, content: Bytes)
    requires Continues(frames, header, written, sent, false, content)
    ensures Continues(frames, header, written, sent, true, content)
    decreases |frames|
  {
    if frames != [] {
      var c := frames[0].chunk;
      CloseContinues(frames[1..], header, if c.Data? then written + c.data else written, sent, content);
    }
  }

  lemma {:induction false} EofContinues(frames: seq<Frame>, header: Request, written: Bytes, sent: Bytes, content: Bytes, f: Frame)
    requires Continues(frames, header, written, sent, false, content) && sent == content
    requires f.request == header && f.chunk == Eof(|sent|)
    ensures Continues(frames + [f], header, written, sent, true, content)
    decreases |frames|
  {
    if frames == [] {
      assert (frames + [f])[1..] == [];
    } else {
      var c := frames[0].chunk;
      assert (frames + [f])[1..] == frames[1..] + [f];
      EofContinues(frames[1..], header, if c.Data? then written + c.data else written, sent, content, f);
    }
  }

  /** A failure may slip in anywhere without disturbing the rest. */
  lemma {:induction false} FailureContinues(a: seq<Frame>, b: seq<Frame>, header: Request, written: Bytes, sent: Bytes, terminal: bool, content: Bytes, f: Frame)
    requires Continues(a + b, header, written, sent, terminal, content) && f.request == header && f.chunk == Failure
    ensures Continues(a + [f] + b, header, written, sent, terminal, content)
    decreases |a|
  {
    if a == [] {
      assert a + [f] + b == [f] + b && ([f] + b)[1..] == b && a + b == b;
    } else {
      var c := a[0].chunk;
      assert (a + b)[1..] == a[1..] + b && (a + [f] + b)[1..] == a[1..] + [f] + b && (a + b)[0] == a[0] == (a + [f] + b)[0];
      FailureContinues(a[1..], b, header, if c.Data? then written + c.data else written, sent, terminal, content, f);
    }
  }

  // --- What every step keeps ---------------------------------------------------------------------------------

  ghost predicate TransferOk(w: World, id: Id) {
    id in w.pulls ==>
      && id in w.served && id in w.content
      && Equal(w.served[id].version, w.pulls[id].request.version)
      && (w.pulls[id].status.Active? ==>
            Continues(w.pulls[id].inbox + Of(w.bulk, id), HeaderOf(w, id), w.pulls[id].written, w.served[id].sent, w.served[id].terminal, w.content[id]))
      && (w.pulls[id].status.Succeeded? ==> w.pulls[id].written == w.content[id] && |w.content[id]| == w.pulls[id].size)
      && UrgentOk(w.urgent, id, HeaderOf(w, id))
  }

  ghost predicate UrgentOk(urgent: seq<Frame>, id: Id, header: Request) {
    forall i :: 0 <= i < |urgent| && urgent[i].id == id ==> urgent[i].request == header && urgent[i].chunk == Failure
  }

  ghost predicate Known(w: World) {
    && (forall id :: id in w.served ==> id in w.pulls)
    && (forall i :: 0 <= i < |w.bulk| ==> w.bulk[i].id in w.pulls)
    && (forall i :: 0 <= i < |w.urgent| ==> w.urgent[i].id in w.pulls)
  }

  lemma UnknownHasNone(frames: seq<Frame>, id: Id)
    requires forall i :: 0 <= i < |frames| ==> frames[i].id != id
    ensures Of(frames, id) == []
  {
  }

  lemma StartKeeps(w: World, s: Step, id: Id)
    requires s.Start? && Enabled(w, s) && Known(w) && TransferOk(w, id)
    ensures TransferOk(Next(w, s), id)
  {
    if s.id == id { UnknownHasNone(w.bulk, id); }
  }

  lemma ServeKeeps(w: World, s: Step, id: Id)
    requires (s.Send? || s.Finish? || s.Fail?) && Enabled(w, s) && TransferOk(w, id)
    ensures TransferOk(Next(w, s), id)
  {
    if id in w.pulls {
      var w', p := Next(w, s), w.pulls[id];
      if s.Fail? {
        if s.id == id && p.status.Active? {
          CloseContinues(p.inbox + Of(w.bulk, id), HeaderOf(w, id), p.written, w.served[id].sent, w.content[id]);
        }
      } else {
        var f := w'.bulk[|w.bulk|];
        OfAppend(w.bulk, f, id);
        if s.id != id {
          assert Of(w'.bulk, id) == Of(w.bulk, id);
        } else if p.status.Active? {
          var frames, sv := p.inbox + Of(w.bulk, id), w.served[id];
          assert p.inbox + Of(w'.bulk, id) == frames + [f];
          if s.Send? {
            SendContinues(frames, HeaderOf(w, id), p.written, sv.sent, w.content[id], f, s.data);
          } else {
            EofContinues(frames, HeaderOf(w, id), p.written, sv.sent, w.content[id], f);
          }
        }
      }
    }
  }

  /** Only what a transfer owns matters to it, and a frame may move from the lane to the inbox. */
  lemma SameTransfer(w: World, w': World, id: Id)
    requires TransferOk(w, id) && id in w.pulls && id in w'.pulls && w'.served == w.served && w'.content == w.content
    requires w'.urgent == w.urgent && w'.pulls[id] == w.pulls[id].(inbox := w'.pulls[id].inbox)
    requires w.pulls[id].status.Active? ==> w'.pulls[id].inbox + Of(w'.bulk, id) == w.pulls[id].inbox + Of(w.bulk, id)
    ensures TransferOk(w', id)
  {
    assert HeaderOf(w', id) == HeaderOf(w, id);
  }

  lemma HeadToInbox(inbox: seq<Frame>, f: Frame, rest: seq<Frame>)
    ensures inbox + ([f] + rest) == (inbox + [f]) + rest
  {
  }

  lemma DeliverBulkKeeps(w: World, id: Id)
    requires Enabled(w, DeliverBulk) && TransferOk(w, id)
    ensures TransferOk(Next(w, DeliverBulk), id)
  {
    var f := w.bulk[0];
    OfHead(w.bulk, id);
    if id in w.pulls {
      if f.id == id && w.pulls[id].status.Active? {
        HeadToInbox(w.pulls[id].inbox, f, Of(w.bulk[1..], id));
      }
      SameTransfer(w, Next(w, DeliverBulk), id);
    }
  }

  lemma DeliverUrgentKeeps(w: World, id: Id)
    requires Enabled(w, DeliverUrgent) && TransferOk(w, id)
    ensures TransferOk(Next(w, DeliverUrgent), id)
  {
    var f := w.urgent[0];
    if id in w.pulls && f.id == id && w.pulls[id].status.Active? {
      FailureContinues(w.pulls[id].inbox, Of(w.bulk, id), HeaderOf(w, id), w.pulls[id].written,
                       w.served[id].sent, w.served[id].terminal, w.content[id], f);
    }
  }

  lemma ConsumeKeeps(w: World, s: Step, id: Id)
    requires s.Consume? && Enabled(w, s) && TransferOk(w, id)
    ensures TransferOk(Next(w, s), id)
    ensures s.id == id ==> Next(w, s).violations == w.violations
  {
    if s.id == id {
      var p := w.pulls[id];
      var all := p.inbox + Of(w.bulk, id);
      assert all[0] == p.inbox[0] && all[1..] == p.inbox[1..] + Of(w.bulk, id);
    }
  }

  lemma StepKeepsTransfer(w: World, s: Step, id: Id)
    requires Enabled(w, s) && Known(w) && TransferOk(w, id)
    ensures TransferOk(Next(w, s), id)
  {
    match s
    case Start(_, _, _, _, _) => StartKeeps(w, s, id);
    case DeliverBulk => DeliverBulkKeeps(w, id);
    case DeliverUrgent => DeliverUrgentKeeps(w, id);
    case Consume(_, _) => ConsumeKeeps(w, s, id);
    case GiveUp(_) =>
    case _ => ServeKeeps(w, s, id);
  }

  lemma StepKeepsKnown(w: World, s: Step)
    requires Enabled(w, s) && Known(w)
    ensures Known(Next(w, s))
  {
  }

  lemma {:induction false} RunKeeps(ws: seq<World>, steps: seq<Step>, i: nat, id: Id)
    requires IsRun(ws, steps) && i < |ws|
    ensures Known(ws[i]) && TransferOk(ws[i], id)
  {
    if i > 0 {
      assert StepAt(ws, steps, i - 1);
      RunKeeps(ws, steps, i - 1, id);
      StepKeepsKnown(ws[i - 1], steps[i - 1]);
      StepKeepsTransfer(ws[i - 1], steps[i - 1], id);
    }
  }

  /**
   In every run, a pull that succeeds has written exactly the bytes of the
   indexed file, and as many as were expected.
   */
  lemma SuccessfulPullIsTheFile(ws: seq<World>, steps: seq<Step>, i: nat, id: Id)
    requires IsRun(ws, steps) && i < |ws| && id in ws[i].pulls && ws[i].pulls[id].status.Succeeded?
    ensures id in ws[i].content && ws[i].pulls[id].written == ws[i].content[id]
    ensures |ws[i].pulls[id].written| == ws[i].pulls[id].size
  {
    RunKeeps(ws, steps, i, id);
  }

  /** The pull takes the frames one after another, the disk accepting every byte, until it ends. */
  function ConsumeAll(p: Pull, frames: seq<Frame>): Pull
    decreases |frames|
  {
    if frames == [] || !p.status.Active? then p
    else
      var f := frames[0];
      ConsumeAll(ConsumeOne(p.(inbox := [f]), if f.chunk.Data? then |f.chunk.data| else 0), frames[1..])
  }

  /** A finished response that arrives whole, with no failure, is a successful pull. */
  /** The chunk names the pull's share and path and the version it asked for, and starts where the pull got to. */
  ghost predicate IsNextOf(p: Pull, f: Frame) {
    && f.request.share == p.request.share && f.request.relpath == p.request.relpath
    && (forall k :: At(f.request.version, k) == At(p.request.version, k))
    && (f.chunk.Data? || f.chunk.Eof?) && f.chunk.offset == |p.written|
  }

  /**
   A pull takes bytes only from a chunk that continues it, in order, and ends at
   any other frame; it succeeds only at an end marker that continues it, and then
   exactly if the size is the expected one.
   */
  lemma ForeignChunksAreRefused(p: Pull, accepted: nat)
    requires p.inbox != [] && p.status == Active
    ensures var f, q := p.inbox[0], ConsumeOne(p, accepted);
            && (!IsNextOf(p, f) ==> q.written == p.written && q.status == Failed)
            && (IsNextOf(p, f) && f.chunk.Data? ==>
                  && q.written == p.written + (if accepted < |f.chunk.data| then f.chunk.data[..accepted] else f.chunk.data)
                  && (q.status == Active <==> accepted >= |f.chunk.data|) && q.status != Succeeded)
            && (IsNextOf(p, f) && f.chunk.Eof? ==>
                  && q.written == p.written
                  && q.status == if |p.written| == p.size then Succeeded else Failed)
            && q.inbox == p.inbox[1..] && q.request == p.request && q.size == p.size
  {
  }

  lemma {:induction false} WholeResponseSucceeds(p: Pull, frames: seq<Frame>, header: Request, sent: Bytes, content: Bytes)
    requires p.status.Active? && |content| == p.size
    requires header.share == p.request.share && header.relpath == p.request.relpath && Equal(header.version, p.request.version)
    requires Continues(frames, header, p.written, sent, true, content)
    requires exists i :: 0 <= i < |frames| && frames[i].chunk.Eof?
    requires forall i :: 0 <= i < |frames| ==> !frames[i].chunk.Failure?
    ensures ConsumeAll(p, frames).status.Succeeded? && ConsumeAll(p, frames).written == content
    decreases |frames|
  {
    var f := frames[0];
    if f.chunk.Data? {
      var next := ConsumeOne(p.(inbox := [f]), |f.chunk.data|);
      assert next.status.Active? && next.written == p.written + f.chunk.data;
      WholeResponseSucceeds(next, frames[1..], header, sent, content);
    } else {
      var next := ConsumeOne(p.(inbox := [f]), 0);
      assert next.status.Succeeded?;
    }
  }

  /** And between honest nodes no interleaving makes a pull refuse a chunk as not its own. */
  lemma {:induction false} NoFalseViolations(ws: seq<World>, steps: seq<Step>, i: nat)
    requires IsRun(ws, steps) && i < |ws|
    ensures ws[i].violations == 0
  {
    if i > 0 {
      assert StepAt(ws, steps, i - 1);
      NoFalseViolations(ws, steps, i - 1);
      var w, s := ws[i - 1], steps[i - 1];
      if s.Consume? {
        RunKeeps(ws, steps, i - 1, s.id);
        ConsumeKeeps(w, s, s.id);
      }
    }
  }

  // --- At most one last frame -------------------------------------------------------------------------------------

  predicate IsTerminal(f: Frame, id: Id) { f.id == id && !f.chunk.Data? }

  function TerminalCount(frames: seq<Frame>, id: Id): nat {
    if frames == [] then 0 else TerminalCount(frames[..|frames| - 1], id) + if IsTerminal(frames[|frames| - 1], id) then 1 else 0
  }

  lemma TerminalAppend(frames: seq<Frame>, f: Frame, id: Id)
    ensures TerminalCount(frames + [f], id) == TerminalCount(frames, id) + if IsTerminal(f, id) then 1 else 0
  {
    assert (frames + [f])[..|frames|] == frames;
  }

  /** The served side queues a last frame exactly when it marks the response as done. */
  ghost predicate TerminalOk(w: World, id: Id) {
    TerminalCount(w.queued, id) == if id in w.served && w.served[id].terminal then 1 else 0
  }

  lemma ServeKeepsTerminal(w: World, s: Step, id: Id)
    requires (s.Send? || s.Finish? || s.Fail?) && Enabled(w, s) && TerminalOk(w, id)
    ensures TerminalOk(Next(w, s), id)
  {
    var c := if s.Send? then Data(|w.served[s.id].sent|, s.data) else if s.Finish? then Eof(|w.served[s.id].sent|) else Failure;
    var f := Frame(s.id, HeaderOf(w, s.id), c);
    assert Next(w, s).queued == w.queued + [f];
    TerminalAppend(w.queued, f, id);
  }

  lemma StepKeepsTerminal(w: World, s: Step, id: Id)
    requires Enabled(w, s) && TerminalOk(w, id)
    ensures TerminalOk(Next(w, s), id)
  {
    if s.Send? || s.Finish? || s.Fail? {
      ServeKeepsTerminal(w, s, id);
    } else {
      assert Next(w, s).queued == w.queued;
    }
  }

  /** In every run, each request queues at most one last frame, an end marker or an error, and none before it is done. */
  lemma {:induction false} AtMostOneTerminalFrame(ws: seq<World>, steps: seq<Step>, i: nat, id: Id)
    requires IsRun(ws, steps) && i < |ws|
    ensures TerminalCount(ws[i].queued, id) == if id in ws[i].served && ws[i].served[id].terminal then 1 else 0
  {
    if i > 0 {
      assert StepAt(ws, steps, i - 1);
      AtMostOneTerminalFrame(ws, steps, i - 1, id);
      StepKeepsTerminal(ws[i - 1], steps[i - 1], id);
    }
  }

  // --- No pull is left waiting for nothing ------------------------------------------------------------------------

  ghost predicate HasLast(frames: seq<Frame>, id: Id) { exists i :: 0 <= i < |frames| && IsTerminal(frames[i], id) }

  /** A pull that still waits for a finished response has its last frame on a lane or in its inbox, which holds at most two. */
  ghost predicate LastIsComing(w: World, id: Id) {
    id in w.pulls && w.pulls[id].status.Active? ==>
      && |w.pulls[id].inbox| <= 2
      && (id in w.served && w.served[id].terminal ==>
            HasLast(w.bulk, id) || HasLast(w.urgent, id) || HasLast(w.pulls[id].inbox, id))
  }

  lemma LastAppend(frames: seq<Frame>, f: Frame, id: Id)
    ensures HasLast(frames + [f], id) <==> HasLast(frames, id) || IsTerminal(f, id)
  {
    var all := frames + [f];
    if HasLast(frames, id) {
      var i :| 0 <= i < |frames| && IsTerminal(frames[i], id);
      assert all[i] == frames[i];
    }
    assert all[|frames|] == f;
  }

  lemma LastHead(frames: seq<Frame>, id: Id)
    requires frames != []
    ensures HasLast(frames, id) <==> IsTerminal(frames[0], id) || HasLast(frames[1..], id)
  {
    if HasLast(frames, id) && !IsTerminal(frames[0], id) {
      var i :| 0 <= i < |frames| && IsTerminal(frames[i], id);
      assert frames[1..][i - 1] == frames[i];
    }
    if HasLast(frames[1..], id) {
      var i :| 0 <= i < |frames[1..]| && IsTerminal(frames[1..][i], id);
      assert frames[i + 1] == frames[1..][i];
    }
  }

  lemma ServeKeepsLast(w: World, s: Step, id: Id)
    requires (s.Send? || s.Finish? || s.Fail?) && Enabled(w, s) && LastIsComing(w, id)
    ensures LastIsComing(Next(w, s), id)
  {
    var c := if s.Send? then Data(|w.served[s.id].sent|, s.data) else if s.Finish? then Eof(|w.served[s.id].sent|) else Failure;
    var f := Frame(s.id, HeaderOf(w, s.id), c);
    LastAppend(w.bulk, f, id);
    LastAppend(w.urgent, f, id);
    assert if s.Fail? then Next(w, s).urgent == w.urgent + [f] else Next(w, s).bulk == w.bulk + [f];
  }

  lemma DeliverKeepsLast(w: World, s: Step, id: Id)
    requires (s.DeliverBulk? || s.DeliverUrgent?) && Enabled(w, s) && LastIsComing(w, id)
    ensures LastIsComing(Next(w, s), id)
  {
    var lane := if s.DeliverBulk? then w.bulk else w.urgent;
    LastHead(lane, id);
    if id in w.pulls { LastAppend(w.pulls[id].inbox, lane[0], id); }
  }

  lemma ConsumeKeepsLast(w: World, s: Step, id: Id)
    requires s.Consume? && Enabled(w, s) && LastIsComing(w, id)
    ensures LastIsComing(Next(w, s), id)
  {
    if s.id == id { LastHead(w.pulls[id].inbox, id); }
  }

  /** In every run a pull that waits while its response is finished has the last frame still coming. */
  lemma {:induction false} WaitingPullsGetALastFrame(ws: seq<World>, steps: seq<Step>, i: nat, id: Id)
    requires IsRun(ws, steps) && i < |ws|
    ensures LastIsComing(ws[i], id)
  {
    if i > 0 {
      assert StepAt(ws, steps, i - 1);
      WaitingPullsGetALastFrame(ws, steps, i - 1, id);
      var w, s := ws[i - 1], steps[i - 1];
      match s
      case Send(_, _) => ServeKeepsLast(w, s, id);
      case Finish(_) => ServeKeepsLast(w, s, id);
      case Fail(_) => ServeKeepsLast(w, s, id);
      case DeliverBulk => DeliverKeepsLast(w, s, id);
      case DeliverUrgent => DeliverKeepsLast(w, s, id);
      case Consume(_, _) => ConsumeKeepsLast(w, s, id);
      case _ =>
    }
  }
}

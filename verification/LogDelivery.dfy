/** One log stream end to end: a node that uploads its growing log, a network that loses, repeats and
    reorders requests and replies, and the control plane's receiver. */
module LogDelivery {
  import opened Common
  import opened LogReceiver
  import opened LogPump

  /** `sent` holds every request ever put on the network and `answered` every request that was stored
      and whose reply is still around; neither ever shrinks, so any of them may arrive at any time. */
  datatype World = World(
    log: string,
    acked: nat,
    pending: seq<Request>,
    sent: set<Request>,
    server: StreamState,
    answered: set<Request>,
    replies: seq<ChunkReply>)

  datatype Step =
    | Grow(more: string)
    | Upload(final: bool)
    | UploadFromStart
    | Post
    | Deliver(request: Request, overQuota: bool)
    | Confirm
    | Abort
    | LoseAckFile

  const INIT := World("", 0, [], {}, EMPTY, {}, [])

  /** A step that is not enabled changes nothing. */
  function Next(w: World, step: Step): World {
    match step
    case Grow(more) => w.(log := w.log + more)
    case Upload(final) =>
      if w.pending != [] then w
      else w.(pending := ChunkRequests(ReadTextSlice(Some(w.log), w.acked).0, w.acked, final))
    case UploadFromStart => if w.pending != [] then w else w.(pending := ChunkRequests(w.log, 0, true))
    case Post => if w.pending == [] then w else w.(sent := w.sent + {w.pending[0]})
    case Deliver(request, overQuota) =>
      if request !in w.sent then w
      else
        var (server, reply) := ReceiveChunk(w.server, request.offsetStart, request.text, overQuota);
        w.(server := server,
           replies := w.replies + [reply],
           answered := if reply.Stored? then w.answered + {request} else w.answered)
    case Confirm =>
      if w.pending == [] || w.pending[0] !in w.answered then w
      else w.(acked := End(w.pending[0]), pending := w.pending[1..])
    case Abort => w.(pending := [])
    case LoseAckFile => w.(acked := 0)
  }

  function Run(steps: seq<Step>): World {
    if steps == [] then INIT else Next(Run(steps[..|steps| - 1]), steps[|steps| - 1])
  }

  function LastOffset(s: StreamState): nat {
    if s.row.Some? then s.row.value.lastOffset else 0
  }

  ghost predicate Inv(w: World) {
    && RowDescribesText(w.server)
    && w.server.stored <= w.log
    && w.acked <= LastOffset(w.server)
    && Contiguous(w.pending)
    && (forall r :: r in w.pending ==> CarriesSlice(r, w.log))
    && (w.pending != [] ==> w.pending[0].offsetStart <= LastOffset(w.server))
    && (forall r :: r in w.sent ==> CarriesSlice(r, w.log) && r.offsetStart <= LastOffset(w.server))
    && (forall r :: r in w.answered ==> End(r) <= LastOffset(w.server))
  }

  /** The part of an honest chunk beyond the stored text continues that text along the log. */
  lemma BeyondIsSlice(stored: string, log: string, r: Request)
    requires CarriesSlice(r, log) && stored <= log && r.offsetStart <= |stored|
    ensures var beyond := Beyond(stored, r.offsetStart, r.text);
            && stored + beyond <= log
            && |stored + beyond| == Max(|stored|, End(r))
            && (beyond != "" <==> |stored| < End(r))
  {
    if |stored| < End(r) {
      assert r.text[|stored| - r.offsetStart..] == log[|stored|..End(r)];
      PrefixGrows(stored, log, End(r));
    } else {
      assert stored + "" == stored;
    }
  }

  lemma PrefixGrows(stored: string, log: string, n: nat)
    requires stored <= log && |stored| <= n <= |log|
    ensures stored + log[|stored|..n] == log[..n]
  {
    assert log[..|stored|] == stored;
  }

  predicate HonestReply(reply: ChunkReply) {
    reply.Stored? || reply.StreamTruncated? || reply.QuotaExceeded?
  }

  /** The chunk comes from the log and leaves no gap: it is stored unless the stream is truncated or the chunk
      has a new part and is over quota, and then the text stored reaches at least to the end of the chunk. */
  ghost predicate HonestAnswer(s: StreamState, s': StreamState, log: string, r: Request, overQuota: bool,
                               reply: ChunkReply)
  {
    var cut := s.row.Some? && s.row.value.truncated;
    && RowDescribesText(s') && s'.stored <= log
    && (reply == StreamTruncated <==> cut)
    && (reply == QuotaExceeded <==> !cut && LastOffset(s) < End(r) && overQuota)
    && (reply == Stored(Max(End(r) - LastOffset(s), 0)) <==> !cut && !(LastOffset(s) < End(r) && overQuota))
    && (reply.Stored? ==> LastOffset(s') == Max(LastOffset(s), End(r)) && s'.row.Some? && !s'.row.value.truncated)
    && (!reply.Stored? ==> s'.stored == s.stored && s'.row.Some? && s'.row.value.truncated)
    && HonestReply(reply)
  }

  lemma AnswerIsHonest(s: StreamState, s': StreamState, log: string, r: Request, overQuota: bool, reply: ChunkReply)
    requires RowDescribesText(s) && s.stored <= log && RowDescribesText(s')
    requires CarriesSlice(r, log) && r.offsetStart <= LastOffset(s)
    requires ChunkAnswer(s, s', r.offsetStart, r.text, overQuota, reply)
    ensures HonestAnswer(s, s', log, r, overQuota, reply)
  {
    BeyondIsSlice(s.stored, log, r);
  }

  lemma ReceiveHonest(s: StreamState, log: string, r: Request, overQuota: bool)
    requires RowDescribesText(s) && s.stored <= log
    requires CarriesSlice(r, log) && r.offsetStart <= LastOffset(s)
    ensures var (s', reply) := ReceiveChunk(s, r.offsetStart, r.text, overQuota);
            HonestAnswer(s, s', log, r, overQuota, reply) && LastOffset(s) <= LastOffset(s')
  {
    ReceiveKeepsRow(s, r.offsetStart, r.text, overQuota);
    ChunkMeans(s, r.offsetStart, r.text, overQuota);
    var (s', reply) := ReceiveChunk(s, r.offsetStart, r.text, overQuota);
    AnswerIsHonest(s, s', log, r, overQuota, reply);
  }

  lemma SliceOfGrown(r: Request, log: string, more: string)
    requires CarriesSlice(r, log)
    ensures CarriesSlice(r, log + more)
  {
  }

  lemma InvGrow(w: World, more: string)
    requires Inv(w)
    ensures Inv(Next(w, Grow(more)))
  {
    forall r | CarriesSlice(r, w.log) ensures CarriesSlice(r, w.log + more) {
      SliceOfGrown(r, w.log, more);
    }
  }

  lemma InvUpload(w: World, step: Step)
    requires Inv(w) && (step.Upload? || step.UploadFromStart?)
    ensures Inv(Next(w, step))
  {
    if w.pending == [] {
      if step.Upload? {
        RequestsCoverLog(w.log, w.acked, step.final);
        assert w.acked == |w.log| ==> w.log[w.acked..] == "";
      } else {
        RequestsCoverLog(w.log, 0, true);
        assert w.log[0..] == w.log;
      }
    }
  }

  lemma InvDeliver(w: World, r: Request, overQuota: bool)
    requires Inv(w)
    ensures Inv(Next(w, Deliver(r, overQuota)))
  {
    if r in w.sent {
      ReceiveHonest(w.server, w.log, r, overQuota);
    }
  }

  lemma InvConfirm(w: World)
    requires Inv(w)
    ensures Inv(Next(w, Confirm))
  {
    if w.pending != [] && w.pending[0] in w.answered {
      var rest := w.pending[1..];
      assert forall i :: 0 <= i < |rest| ==> rest[i] == w.pending[i + 1];
    }
  }

  lemma InvNext(w: World, step: Step)
    requires Inv(w)
    ensures Inv(Next(w, step))
  {
    match step {
      case Grow(more) => InvGrow(w, more);
      case Upload(_) => InvUpload(w, step);
      case UploadFromStart => InvUpload(w, step);
      case Post =>
      case Deliver(r, overQuota) => InvDeliver(w, r, overQuota);
      case Confirm => InvConfirm(w);
      case Abort =>
      case LoseAckFile =>
    }
  }

  lemma {:induction false} RunInv(steps: seq<Step>)
    ensures Inv(Run(steps))
  {
    if steps != [] {
      RunInv(steps[..|steps| - 1]);
      InvNext(Run(steps[..|steps| - 1]), steps[|steps| - 1]);
    }
  }

  /** Exactly once and in order: in every run the text the server accepted is the node's log up to the
      server's offset, and the node never believes more than that was accepted. */
  lemma AcceptedTextIsLogPrefix(steps: seq<Step>)
    ensures var w := Run(steps);
            && LastOffset(w.server) <= |w.log|
            && w.server.stored == w.log[..LastOffset(w.server)]
            && w.acked <= LastOffset(w.server)
  {
    RunInv(steps);
  }

  /** No request of such a node is ever refused for its offset. */
  lemma {:induction false} NoOffsetErrors(steps: seq<Step>)
    ensures forall reply :: reply in Run(steps).replies ==> HonestReply(reply)
  {
    if steps != [] {
      var front := steps[..|steps| - 1];
      NoOffsetErrors(front);
      RunInv(front);
      var w, step := Run(front), steps[|steps| - 1];
      if step.Deliver? && step.request in w.sent {
        ReceiveHonest(w.server, w.log, step.request, step.overQuota);
      }
    }
  }

  predicate Truncated(w: World) {
    w.server.row.Some? && w.server.row.value.truncated
  }

  /** Once a stream is truncated its row and text stay as they are, whatever happens afterwards. */
  lemma {:induction false} TruncatedIsFrozen(steps: seq<Step>, more: seq<Step>)
    requires Truncated(Run(steps))
    ensures Run(steps + more).server == Run(steps).server
  {
    if more == [] {
      assert steps + more == steps;
    } else {
      var front := more[..|more| - 1];
      TruncatedIsFrozen(steps, front);
      assert (steps + more)[..|steps + more| - 1] == steps + front;
    }
  }

  // ---- runs within the quota ----

  predicate WithinQuota(steps: seq<Step>) {
    forall i :: 0 <= i < |steps| && steps[i].Deliver? ==> !steps[i].overQuota
  }

  /** If no delivery is over quota, every delivery is answered as stored and the stream is never truncated. */
  lemma {:induction false} NothingIsCut(steps: seq<Step>)
    requires WithinQuota(steps)
    ensures !Truncated(Run(steps))
    ensures forall reply :: reply in Run(steps).replies ==> reply.Stored?
  {
    if steps != [] {
      var front := steps[..|steps| - 1];
      NothingIsCut(front);
      RunInv(front);
      var w, step := Run(front), steps[|steps| - 1];
      if step.Deliver? && step.request in w.sent {
        ReceiveHonest(w.server, w.log, step.request, step.overQuota);
      }
    }
  }

  /** And after each delivery the server has the log at least to the end of the request. */
  lemma DeliveryIsStored(steps: seq<Step>, r: Request)
    requires WithinQuota(steps) && r in Run(steps).sent
    ensures var w, u := Run(steps), Run(steps + [Deliver(r, false)]);
            && u.replies == w.replies + [Stored(Max(End(r) - LastOffset(w.server), 0))]
            && LastOffset(u.server) == Max(LastOffset(w.server), End(r)) <= |u.log|
            && u.server.stored == u.log[..LastOffset(u.server)]
            && r in u.answered
  {
    var w := Run(steps);
    NothingIsCut(steps);
    RunInv(steps);
    ReceiveHonest(w.server, w.log, r, false);
    AcceptedTextIsLogPrefix(steps + [Deliver(r, false)]);
    RunStep(steps, Deliver(r, false));
    var (server, reply) := ReceiveChunk(w.server, r.offsetStart, r.text, false);
    DeliverWrites(w, Next(w, Deliver(r, false)), r, server, reply);
  }

  lemma DeliverWrites(w: World, u: World, r: Request, server: StreamState, reply: ChunkReply)
    requires r in w.sent && (server, reply) == ReceiveChunk(w.server, r.offsetStart, r.text, false)
    requires u == Next(w, Deliver(r, false)) && reply.Stored?
    ensures u.server == server && u.replies == w.replies + [reply] && r in u.answered && u.log == w.log
  {
  }

  lemma RunStep(steps: seq<Step>, step: Step)
    ensures Run(steps + [step]) == Next(Run(steps), step)
  {
    assert (steps + [step])[..|steps|] == steps;
  }

  lemma WithinQuotaMore(steps: seq<Step>, step: Step)
    requires WithinQuota(steps) && (step.Deliver? ==> !step.overQuota)
    ensures WithinQuota(steps + [step])
  {
  }

  /** A request is sent, delivered and confirmed, and nothing is lost. */
  lemma ChunkGoesThrough(steps: seq<Step>) returns (more: seq<Step>)
    requires WithinQuota(steps) && Run(steps).pending != []
    ensures WithinQuota(more)
    ensures var w, u := Run(steps), Run(more);
            && u.pending == w.pending[1..] && u.log == w.log && u.acked == End(w.pending[0])
  {
    var r := Run(steps).pending[0];
    var posted := steps + [Post];
    RunStep(steps, Post);
    WithinQuotaMore(steps, Post);
    DeliveryIsStored(posted, r);
    RunStep(posted, Deliver(r, false));
    WithinQuotaMore(posted, Deliver(r, false));
    more := posted + [Deliver(r, false)] + [Confirm];
    RunStep(posted + [Deliver(r, false)], Confirm);
    WithinQuotaMore(posted + [Deliver(r, false)], Confirm);
  }

  lemma {:induction false} ChunksGoThrough(steps: seq<Step>) returns (more: seq<Step>)
    requires WithinQuota(steps)
    ensures WithinQuota(more)
    ensures var w, u := Run(steps), Run(more);
            && u.pending == [] && u.log == w.log
            && u.acked == (if w.pending == [] then w.acked else End(w.pending[|w.pending| - 1]))
    decreases |Run(steps).pending|
  {
    more := steps;
    if Run(steps).pending != [] {
      var first := ChunkGoesThrough(steps);
      more := ChunksGoThrough(first);
    }
  }

  /** From any state a run within the quota can reach between two uploads, one upload of which nothing is lost
      brings the whole log to the server. */
  lemma CleanUploadCompletes(steps: seq<Step>, final: bool) returns (more: seq<Step>)
    requires WithinQuota(steps) && Run(steps).pending == []
    ensures WithinQuota(more)
    ensures var w, u := Run(steps), Run(more);
            u.log == w.log && u.acked == |w.log| && u.server.stored == w.log
  {
    var w := Run(steps);
    var started := steps + [Upload(final)];
    RunInv(steps);
    RunStep(steps, Upload(final));
    WithinQuotaMore(steps, Upload(final));
    RequestsCoverLog(w.log, w.acked, final);
    assert w.acked == |w.log| ==> w.log[w.acked..] == "";
    more := ChunksGoThrough(started);
    FinishedUploadIsComplete(more);
  }

  /** If the server kept storing and the upload was confirmed to its end, nothing is missing. */
  lemma {:induction false} FinishedUploadIsComplete(steps: seq<Step>)
    requires Run(steps).acked == |Run(steps).log|
    ensures Run(steps).server.stored == Run(steps).log
  {
    RunInv(steps);
  }
}

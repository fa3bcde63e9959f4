/** The node's side of log upload: cutting the unacknowledged end of a log into chunks, sending them in
    order, and recording after each success how far the control plane has confirmed. */
module LogPump {
  import opened Common

  const LOG_CHUNK_SIZE: nat := 3500

  type TaskId = string

  datatype Stream = Stdout | Stderr

  datatype Request = Request(offsetStart: nat, text: string, isFinal: bool)

  function End(r: Request): nat {
    r.offsetStart + |r.text|
  }

  /** The text of a log from `offset` on and the length of the log; a missing file is an empty slice. */
  function ReadTextSlice(log: Option<string>, offset: nat): (string, nat) {
    match log
    case None => ("", offset)
    case Some(text) => if offset >= |text| then ("", |text|) else (text[offset..], |text|)
  }

  function ChunkAt(text: string, at: nat, start: nat, final: bool): Request
    requires at < |text|
  {
    var stop := Min(at + LOG_CHUNK_SIZE, |text|);
    Request(start + at, text[at..stop], final && stop == |text|)
  }

  /** The requests for the text from position `at` on, the first character of the text stamped `start`. */
  function ChunksFrom(text: string, at: nat, start: nat, final: bool): seq<Request>
    requires at <= |text|
    decreases |text| - at
  {
    if at == |text| then []
    else [ChunkAt(text, at, start, final)] + ChunksFrom(text, Min(at + LOG_CHUNK_SIZE, |text|), start, final)
  }

  /** The requests that upload `text`. Only an empty final upload sends an empty chunk. */
  function ChunkRequests(text: string, start: nat, final: bool): seq<Request> {
    if text == "" then (if final then [Request(start, "", true)] else [])
    else ChunksFrom(text, 0, start, final)
  }

  /** `r` carries exactly the characters of `log` that its offset announces. */
  predicate CarriesSlice(r: Request, log: string) {
    End(r) <= |log| && r.text == log[r.offsetStart..End(r)]
  }

  predicate Contiguous(requests: seq<Request>) {
    forall i :: 0 < i < |requests| ==> requests[i].offsetStart == End(requests[i - 1])
  }

  /** Together the requests carry `log` from `start` to its end, without gaps or overlaps, in chunks of
      bounded size, and exactly the last is marked final, if any is. */
  ghost predicate Covers(requests: seq<Request>, log: string, start: nat, final: bool) {
    && Contiguous(requests)
    && (requests != [] ==> requests[0].offsetStart == start && End(requests[|requests| - 1]) == |log|)
    && (forall r :: r in requests ==> CarriesSlice(r, log) && |r.text| <= 3500)
    && (forall i :: 0 <= i < |requests| - 1 ==> |requests[i].text| == 3500)
    && (forall i :: 0 <= i < |requests| ==> (requests[i].isFinal <==> final && i == |requests| - 1))
  }

  lemma ChunkCarries(log: string, start: nat, at: nat, final: bool)
    requires start + at < |log|
    ensures var text := log[start..];
            var next := Min(at + LOG_CHUNK_SIZE, |text|);
            var r := ChunkAt(text, at, start, final);
            && CarriesSlice(r, log) && r.offsetStart == start + at && End(r) == start + next
            && |r.text| <= 3500 && (next < |text| ==> |r.text| == 3500)
            && (r.isFinal <==> final && next == |text|)
  {
    var text := log[start..];
    var next := Min(at + LOG_CHUNK_SIZE, |text|);
    assert text[at..next] == log[start + at..start + next];
  }

  lemma {:induction false} ChunksFromCover(log: string, start: nat, at: nat, final: bool)
    requires start + at <= |log|
    ensures Covers(ChunksFrom(log[start..], at, start, final), log, start + at, final)
    ensures at < |log| - start <==> ChunksFrom(log[start..], at, start, final) != []
    decreases |log| - at
  {
    var text := log[start..];
    if at < |text| {
      var next := Min(at + LOG_CHUNK_SIZE, |text|);
      ChunksFromCover(log, start, next, final);
      ChunkCarries(log, start, at, final);
      ConsCovers(ChunkAt(text, at, start, final), ChunksFrom(text, next, start, final), log, final);
    }
  }

  lemma ConsCovers(r: Request, rest: seq<Request>, log: string, final: bool)
    requires CarriesSlice(r, log) && |r.text| <= 3500 && (rest != [] ==> |r.text| == 3500)
    requires r.isFinal <==> final && rest == []
    requires rest == [] ==> End(r) == |log|
    requires Covers(rest, log, End(r), final)
    ensures Covers([r] + rest, log, r.offsetStart, final)
  {
    var requests := [r] + rest;
    assert forall i :: 0 < i < |requests| ==> requests[i] == rest[i - 1];
  }

  lemma RequestsCoverLog(log: string, start: nat, final: bool)
    requires start <= |log|
    ensures Covers(ChunkRequests(log[start..], start, final), log, start, final)
    ensures ChunkRequests(log[start..], start, final) == [] <==> start == |log| && !final
  {
    ChunksFromCover(log, start, 0, final);
  }

  /** The file of confirmed offsets. */
  class AckFile {
    var acked: map<(TaskId, Stream), nat>

    constructor ()
      ensures acked == map[]
    {
      acked := map[];
    }

    function AckedLogOffset(task: TaskId, stream: Stream): nat
      reads this
    {
      if (task, stream) in acked then acked[(task, stream)] else 0
    }

    /** Adds missing entries at zero; what was confirmed stays confirmed. */
    method InitLogOffsets(task: TaskId)
      modifies this
      ensures forall t, s :: AckedLogOffset(t, s) == old(AckedLogOffset(t, s))
      ensures acked.Keys == old(acked.Keys) + {(task, Stdout), (task, Stderr)}
    {
      if (task, Stdout) !in acked {
        acked := acked[(task, Stdout) := 0];
      }
      if (task, Stderr) !in acked {
        acked := acked[(task, Stderr) := 0];
      }
    }

    method StoreAckedLogOffset(task: TaskId, stream: Stream, offset: nat)
      modifies this
      ensures acked == old(acked)[(task, stream) := offset]
    {
      acked := acked[(task, stream) := offset];
    }

    method ClearLogOffsets(task: TaskId)
      modifies this
      ensures forall t, s :: AckedLogOffset(t, s) == if t == task then 0 else old(AckedLogOffset(t, s))
    {
      acked := map k | k in acked && k.0 != task :: acked[k];
    }
  }

  /** Sends the chunks of `text` in order until one send fails. The sends numbered in `lost` do not return;
      the exception then leaves the loop and the offset stays at the last success.
      The first `confirmed` of the requests sent were answered. */
  method SendLogChunksWithAck(acks: AckFile, task: TaskId, stream: Stream, text: string, startOffset: nat,
                              final: bool, lost: set<nat>)
    returns (requests: seq<Request>, confirmed: nat)
    modifies acks
    ensures requests <= ChunkRequests(text, startOffset, final)
    ensures if confirmed == |requests| then requests == ChunkRequests(text, startOffset, final)
            else confirmed == |requests| - 1 && confirmed in lost
    ensures forall k :: 0 <= k < confirmed ==> k !in lost
    ensures acks.acked == if confirmed == 0 then old(acks.acked)
                          else old(acks.acked)[(task, stream) := End(requests[confirmed - 1])]
  {
    if text == "" {
      requests, confirmed := [], 0;
      if final {
        requests := [Request(startOffset, "", true)];
        if 0 in lost {
          return;
        }
        acks.StoreAckedLogOffset(task, stream, startOffset);
        confirmed := 1;
      }
      return;
    }
    requests, confirmed := SendChunks(acks, task, stream, text, startOffset, final, lost);
  }

  method SendChunks(acks: AckFile, task: TaskId, stream: Stream, text: string, startOffset: nat,
                    final: bool, lost: set<nat>)
    returns (requests: seq<Request>, confirmed: nat)
    modifies acks
    ensures requests <= ChunksFrom(text, 0, startOffset, final)
    ensures if confirmed == |requests| then requests == ChunksFrom(text, 0, startOffset, final)
            else confirmed == |requests| - 1 && confirmed in lost
    ensures forall k :: 0 <= k < confirmed ==> k !in lost
    ensures acks.acked == if confirmed == 0 then old(acks.acked)
                          else old(acks.acked)[(task, stream) := End(requests[confirmed - 1])]
  {
    ghost var all, before := ChunksFrom(text, 0, startOffset, final), acks.acked;
    var offset, relativeOffset := startOffset, 0;
    requests, confirmed := [], 0;
    while relativeOffset < |text|
      invariant 0 <= relativeOffset <= |text| && offset == startOffset + relativeOffset
      invariant Sent(all, requests, confirmed) && confirmed == |requests|
      invariant all[confirmed..] == ChunksFrom(text, relativeOffset, startOffset, final)
      invariant forall k :: 0 <= k < confirmed ==> k !in lost
      invariant confirmed > 0 ==> End(requests[confirmed - 1]) == offset
      invariant acks.acked == Confirmed(before, task, stream, confirmed, offset)
    {
      var chunk := text[relativeOffset..Min(relativeOffset + LOG_CHUNK_SIZE, |text|)];
      var request := Request(offset, chunk, final && relativeOffset + |chunk| >= |text|);
      NextChunk(text, relativeOffset, startOffset, final, all, confirmed);
      SentOneMore(all, requests, confirmed);
      requests := requests + [request];
      if confirmed in lost {
        return;
      }
      ConfirmedMore(before, task, stream, confirmed, offset, offset + |chunk|);
      offset := offset + |chunk|;
      relativeOffset := relativeOffset + |chunk|;
      acks.StoreAckedLogOffset(task, stream, offset);
      confirmed := confirmed + 1;
    }
  }

  /** The first `n` requests were sent. */
  predicate Sent(all: seq<Request>, requests: seq<Request>, n: nat) {
    n <= |all| && requests == all[..n]
  }

  lemma SentOneMore(all: seq<Request>, requests: seq<Request>, n: nat)
    requires Sent(all, requests, n) && n < |all|
    ensures Sent(all, requests + [all[n]], n + 1)
  {
  }

  /** The offsets after the first `confirmed` sends, the last of which ended at `offset`. */
  function Confirmed(before: map<(TaskId, Stream), nat>, task: TaskId, stream: Stream, confirmed: nat, offset: nat)
    : map<(TaskId, Stream), nat>
  {
    if confirmed == 0 then before else before[(task, stream) := offset]
  }

  lemma ConfirmedMore(before: map<(TaskId, Stream), nat>, task: TaskId, stream: Stream, confirmed: nat,
                      offset: nat, next: nat)
    ensures Confirmed(before, task, stream, confirmed, offset)[(task, stream) := next]
            == Confirmed(before, task, stream, confirmed + 1, next)
  {
  }

  lemma NextChunk(text: string, at: nat, start: nat, final: bool, all: seq<Request>, n: nat)
    requires at < |text| && n <= |all| && all[n..] == ChunksFrom(text, at, start, final)
    ensures var chunk := text[at..Min(at + LOG_CHUNK_SIZE, |text|)];
            && 0 < |chunk| && at + |chunk| <= |text|
            && n < |all| && all[n] == Request(start + at, chunk, final && at + |chunk| >= |text|)
            && all[n + 1..] == ChunksFrom(text, at + |chunk|, start, final)
  {
    assert all[n] == all[n..][0] && all[n + 1..] == all[n..][1..];
  }
}

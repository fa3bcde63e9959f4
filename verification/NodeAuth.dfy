/** Authentication of node requests: signature, clock skew, one-time nonces and timestamps that must grow,
    inside a transaction that is rolled back when a check fails. Signatures are abstract. */
module NodeAuth {
  import opened Common
  import opened TextOrder

  /** The accepted clock skew and the lifetime of a nonce, in seconds. */
  datatype Settings = Settings(skewSec: nat, ttlSec: nat)

  const DEFAULTS := Settings(300, 120)

  datatype NodeRow = NodeRow(enabled: bool, keyAvailable: bool, lastRequestTs: Option<string>)

  /** The four headers; `requestTime` is what the timestamp parses to and `signatureValid` whether the
      signature matches the node's key. */
  datatype Request = Request(
    node: NodeId, timestamp: string, nonce: string, signature: string,
    requestTime: Option<Time>, signatureValid: bool)

  datatype AuthError =
    | MissingHeaders | InvalidTimestamp | TimestampSkew | NodeNotFoundOrDisabled
    | SigningKeyUnavailable | InvalidSignature | NonceDuplicate | TimestampReplay

  datatype AuthState = AuthState(nodes: map<NodeId, NodeRow>, nonces: map<(NodeId, string), Time>)

  function Expiry(c: Settings, clock: Time): Time {
    Seconds(clock + c.ttlSec * SECOND)
  }

  predicate Skewed(c: Settings, clock: Time, requestTime: Time) {
    clock - requestTime > c.skewSec * SECOND || requestTime - clock > c.skewSec * SECOND
  }

  predicate Newer(row: NodeRow, timestamp: string) {
    row.lastRequestTs.None? || TextLess(row.lastRequestTs.value, timestamp)
  }

  /** The first check that fails, in the order of the handler. */
  function Refusal(c: Settings, s: AuthState, r: Request, clock: Time): Option<AuthError> {
    if r.node == "" || r.timestamp == "" || r.nonce == "" || r.signature == "" then Some(MissingHeaders)
    else if r.requestTime.None? then Some(InvalidTimestamp)
    else if Skewed(c, clock, r.requestTime.value) then Some(TimestampSkew)
    else if r.node !in s.nodes || !s.nodes[r.node].enabled then Some(NodeNotFoundOrDisabled)
    else if !s.nodes[r.node].keyAvailable then Some(SigningKeyUnavailable)
    else if !r.signatureValid then Some(InvalidSignature)
    else if (r.node, r.nonce) in s.nonces then Some(NonceDuplicate)
    else if !Newer(s.nodes[r.node], r.timestamp) then Some(TimestampReplay)
    else None
  }

  /** An accepted request records its nonce and timestamp; a refused one leaves no trace. */
  function Authenticated(c: Settings, s: AuthState, r: Request, clock: Time): AuthState {
    if Refusal(c, s, r, clock).Some? then s
    else
      AuthState(s.nodes[r.node := s.nodes[r.node].(lastRequestTs := Some(r.timestamp))],
                s.nonces[(r.node, r.nonce) := Expiry(c, clock)])
  }

  function Pruned(nonces: map<(NodeId, string), Time>, now: Time): map<(NodeId, string), Time> {
    map k | k in nonces && now <= nonces[k] :: nonces[k]
  }

  /** A genuine request: complete, stamped within the skew, from an enabled node whose key signed it, with a
      nonce that is not stored and a stamp later than the last. */
  ghost predicate Genuine(c: Settings, s: AuthState, r: Request, clock: Time) {
    && r.node != "" && r.timestamp != "" && r.nonce != "" && r.signature != ""
    && r.requestTime.Some?
    && clock - r.requestTime.value <= c.skewSec * 1_000_000
    && r.requestTime.value - clock <= c.skewSec * 1_000_000
    && r.node in s.nodes && s.nodes[r.node].enabled && s.nodes[r.node].keyAvailable
    && r.signatureValid
    && (r.node, r.nonce) !in s.nonces
    && (s.nodes[r.node].lastRequestTs.Some? ==> TextLess(s.nodes[r.node].lastRequestTs.value, r.timestamp))
  }

  /** What each refusal says is so. */
  ghost predicate Reason(c: Settings, s: AuthState, r: Request, clock: Time, error: AuthError) {
    match error
    case MissingHeaders => r.node == "" || r.timestamp == "" || r.nonce == "" || r.signature == ""
    case InvalidTimestamp => r.requestTime.None?
    case TimestampSkew =>
      r.requestTime.Some?
      && (clock < r.requestTime.value - c.skewSec * 1_000_000 || r.requestTime.value + c.skewSec * 1_000_000 < clock)
    case NodeNotFoundOrDisabled => r.node in s.nodes ==> !s.nodes[r.node].enabled
    case SigningKeyUnavailable => r.node in s.nodes && !s.nodes[r.node].keyAvailable
    case InvalidSignature => !r.signatureValid
    case NonceDuplicate => r.signatureValid && (r.node, r.nonce) in s.nonces
    case TimestampReplay =>
      && r.signatureValid && r.node in s.nodes && s.nodes[r.node].lastRequestTs.Some?
      && (s.nodes[r.node].lastRequestTs.value == r.timestamp
          || TextLess(r.timestamp, s.nodes[r.node].lastRequestTs.value))
  }

  /** Accepted exactly if genuine, and then the nonce is stored with its expiry and the stamp becomes the
      node's last; refused for a true reason, and then nothing changes. */
  ghost predicate AuthAnswer(c: Settings, s: AuthState, s': AuthState, r: Request, clock: Time,
                             error: Option<AuthError>)
  {
    && (error.None? <==> Genuine(c, s, r, clock))
    && (error.Some? ==> Reason(c, s, r, clock, error.value) && s' == s)
    && (error.None? ==>
          && s'.nodes == s.nodes[r.node := s.nodes[r.node].(lastRequestTs := Some(r.timestamp))]
          && (r.node, r.nonce) in s'.nonces
          && s'.nonces == s.nonces[(r.node, r.nonce) := s'.nonces[(r.node, r.nonce)]]
          && var life := s'.nonces[(r.node, r.nonce)] - clock;
             (c.ttlSec - 1) * 1_000_000 < life <= c.ttlSec * 1_000_000)
  }

  lemma AuthMeans(c: Settings, s: AuthState, r: Request, clock: Time)
    ensures AuthAnswer(c, s, Authenticated(c, s, r, clock), r, clock, Refusal(c, s, r, clock))
  {
    if r.node in s.nodes && s.nodes[r.node].lastRequestTs.Some? {
      TextLessTotal(s.nodes[r.node].lastRequestTs.value, r.timestamp);
    }
  }

  class AuthStore {
    const c: Settings
    var nodes: map<NodeId, NodeRow>
    var nonces: map<(NodeId, string), Time>

    function State(): AuthState
      reads this
    {
      AuthState(nodes, nonces)
    }

    constructor (c: Settings)
      ensures this.c == c && State() == AuthState(map[], map[])
    {
      this.c := c;
      nodes, nonces := map[], map[];
    }

    /** The INSERT, which fails on a repeated nonce. */
    method InsertNonce(node: NodeId, nonce: string, expiresAt: Time) returns (ok: bool)
      modifies this`nonces
      ensures ok <==> (node, nonce) !in old(nonces)
      ensures nonces == if ok then old(nonces)[(node, nonce) := expiresAt] else old(nonces)
    {
      ok := (node, nonce) !in nonces;
      if ok {
        nonces := nonces[(node, nonce) := expiresAt];
      }
    }

    /** The guarded UPDATE of the node's last timestamp, with the number of rows it changed. */
    method UpdateLastRequest(node: NodeId, timestamp: string) returns (rowcount: nat)
      modifies this`nodes
      ensures rowcount == if node in old(nodes) && old(nodes)[node].enabled && Newer(old(nodes)[node], timestamp)
                          then 1 else 0
      ensures nodes == if rowcount == 1 then old(nodes)[node := old(nodes)[node].(lastRequestTs := Some(timestamp))]
                       else old(nodes)
    {
      rowcount := 0;
      if node in nodes && nodes[node].enabled && Newer(nodes[node], timestamp) {
        nodes := nodes[node := nodes[node].(lastRequestTs := Some(timestamp))];
        rowcount := 1;
      }
    }

    method Authenticate(r: Request, clock: Time) returns (error: Option<AuthError>)
      modifies this
      ensures error == Refusal(c, old(State()), r, clock)
      ensures State() == Authenticated(c, old(State()), r, clock)
      ensures AuthAnswer(c, old(State()), State(), r, clock, error)
    {
      AuthMeans(c, State(), r, clock);
      if r.node == "" || r.timestamp == "" || r.nonce == "" || r.signature == "" {
        return Some(MissingHeaders);
      }
      if r.requestTime.None? {
        return Some(InvalidTimestamp);
      }
      if Skewed(c, clock, r.requestTime.value) {
        return Some(TimestampSkew);
      }
      var savedNodes, savedNonces := nodes, nonces;
      error := Transaction(r, clock);
      if error.Some? {
        nodes, nonces := savedNodes, savedNonces;
      }
    }

    /** The statements of the transaction up to the first that raises; what they wrote before that is
        undone by the caller. */
    method Transaction(r: Request, clock: Time) returns (error: Option<AuthError>)
      requires r.node != "" && r.timestamp != "" && r.nonce != "" && r.signature != ""
      requires r.requestTime.Some? && !Skewed(c, clock, r.requestTime.value)
      modifies this
      ensures error == Refusal(c, old(State()), r, clock)
      ensures error.None? ==> State() == Authenticated(c, old(State()), r, clock)
    {
      if r.node !in nodes || !nodes[r.node].enabled {
        return Some(NodeNotFoundOrDisabled);
      }
      if !nodes[r.node].keyAvailable {
        return Some(SigningKeyUnavailable);
      }
      if !r.signatureValid {
        return Some(InvalidSignature);
      }
      var inserted := InsertNonce(r.node, r.nonce, Expiry(c, clock));
      if !inserted {
        return Some(NonceDuplicate);
      }
      var rowcount := UpdateLastRequest(r.node, r.timestamp);
      if rowcount != 1 {
        return Some(TimestampReplay);
      }
      return None;
    }

    method PruneExpiredNonces(now: Time)
      modifies this`nonces
      ensures nonces == Pruned(old(nonces), now)
    {
      nonces := map k | k in nonces && !(nonces[k] < now) :: nonces[k];
    }
  }

  // ---- runs ----

  datatype Step =
    | PutNode(node: NodeId, enabled: bool, keyAvailable: bool)
    | Receive(request: Request, clock: Time)
    | Prune(clock: Time)

  datatype Entry = Accepted(request: Request, clock: Time) | PruneRan(at: Time)

  /** `history` lists the accepted requests and the prunes in order. */
  datatype World = World(state: AuthState, history: seq<Entry>)

  const START := World(AuthState(map[], map[]), [])

  function Next(c: Settings, w: World, step: Step): World {
    match step
    case PutNode(node, enabled, keyAvailable) =>
      var last := if node in w.state.nodes then w.state.nodes[node].lastRequestTs else None;
      w.(state := w.state.(nodes := w.state.nodes[node := NodeRow(enabled, keyAvailable, last)]))
    case Receive(r, clock) =>
      if Refusal(c, w.state, r, clock).Some? then w
      else World(Authenticated(c, w.state, r, clock), w.history + [Accepted(r, clock)])
    case Prune(clock) =>
      World(w.state.(nonces := Pruned(w.state.nonces, Seconds(clock))), w.history + [PruneRan(Seconds(clock))])
  }

  function Run(c: Settings, steps: seq<Step>): World {
    if steps == [] then START else Next(c, Run(c, steps[..|steps| - 1]), steps[|steps| - 1])
  }

  lemma RunStep(c: Settings, steps: seq<Step>, step: Step)
    ensures Run(c, steps + [step]) == Next(c, Run(c, steps), step)
  {
    assert (steps + [step])[..|steps|] == steps;
  }

  /** Every request in the history was received, and genuine when it was: its node's key had signed it, and the
      node was enabled. */
  lemma {:induction false} AcceptedWasGenuine(c: Settings, steps: seq<Step>, e: Entry) returns (m: nat)
    requires e in Run(c, steps).history && e.Accepted?
    ensures m < |steps| && steps[m] == Receive(e.request, e.clock)
    ensures Genuine(c, Run(c, steps[..m]).state, e.request, e.clock)
  {
    var front, step := steps[..|steps| - 1], steps[|steps| - 1];
    if e in Run(c, front).history {
      m := AcceptedWasGenuine(c, front, e);
      assert front[..m] == steps[..m];
    } else {
      m := |steps| - 1;
      AuthMeans(c, Run(c, front).state, e.request, e.clock);
    }
  }

  /** And every genuine request that is received enters the history. */
  lemma GenuineIsAccepted(c: Settings, steps: seq<Step>, r: Request, clock: Time)
    ensures var h, h' := Run(c, steps).history, Run(c, steps + [Receive(r, clock)]).history;
            h' == if Genuine(c, Run(c, steps).state, r, clock) then h + [Accepted(r, clock)] else h
  {
    RunStep(c, steps, Receive(r, clock));
    AuthMeans(c, Run(c, steps).state, r, clock);
  }

  // ---- timestamps ----

  /** The stored timestamp of a node is at or after that of every request accepted from it. */
  ghost predicate LastIsLatest(w: World) {
    forall e :: e in w.history && e.Accepted? ==>
      var node, ts := e.request.node, e.request.timestamp;
      && node in w.state.nodes && w.state.nodes[node].lastRequestTs.Some?
      && (w.state.nodes[node].lastRequestTs.value == ts || TextLess(ts, w.state.nodes[node].lastRequestTs.value))
  }

  ghost predicate Increasing(history: seq<Entry>) {
    forall i, j | 0 <= i < j < |history| && history[i].Accepted? && history[j].Accepted?
                  && history[i].request.node == history[j].request.node ::
      TextLess(history[i].request.timestamp, history[j].request.timestamp)
  }

  lemma ReceiveKeepsLatest(c: Settings, w: World, r: Request, clock: Time)
    requires LastIsLatest(w) && Increasing(w.history)
    requires Refusal(c, w.state, r, clock).None?
    ensures LastIsLatest(Next(c, w, Receive(r, clock))) && Increasing(Next(c, w, Receive(r, clock)).history)
  {
    forall e | e in w.history && e.Accepted? && e.request.node == r.node
      ensures TextLess(e.request.timestamp, r.timestamp)
    {
      var last := w.state.nodes[r.node].lastRequestTs.value;
      if e.request.timestamp != last {
        TextLessTransitive(e.request.timestamp, last, r.timestamp);
      }
    }
  }

  lemma {:induction false} RunLatest(c: Settings, steps: seq<Step>)
    ensures LastIsLatest(Run(c, steps)) && Increasing(Run(c, steps).history)
  {
    if steps != [] {
      var front, step := steps[..|steps| - 1], steps[|steps| - 1];
      RunLatest(c, front);
      if step.Receive? && Refusal(c, Run(c, front).state, step.request, step.clock).None? {
        ReceiveKeepsLatest(c, Run(c, front), step.request, step.clock);
      }
    }
  }

  /** In every run the requests accepted from one node have strictly increasing timestamps. */
  lemma AcceptedTimestampsIncrease(c: Settings, steps: seq<Step>, i: nat, j: nat)
    requires var h := Run(c, steps).history;
             i < j < |h| && h[i].Accepted? && h[j].Accepted? && h[i].request.node == h[j].request.node
    ensures var h := Run(c, steps).history; TextLess(h[i].request.timestamp, h[j].request.timestamp)
  {
    RunLatest(c, steps);
  }

  /** No request, and no other request with its timestamp, is accepted a second time, whatever became of its
      nonce. */
  lemma NoReplay(c: Settings, steps: seq<Step>, r: Request, clock: Time, e: Entry)
    requires e in Run(c, steps).history && e.Accepted?
    requires e.request.node == r.node && e.request.timestamp == r.timestamp
    ensures Refusal(c, Run(c, steps).state, r, clock).Some?
    ensures Run(c, steps + [Receive(r, clock)]) == Run(c, steps)
  {
    RunLatest(c, steps);
    TextLessIrreflexive(r.timestamp);
    var last := Run(c, steps).state.nodes[r.node].lastRequestTs.value;
    if last != r.timestamp && TextLess(last, r.timestamp) {
      TextLessTransitive(r.timestamp, last, r.timestamp);
    }
    RunStep(c, steps, Receive(r, clock));
  }

  // ---- nonces ----

  predicate SameNonce(e: Entry, r: Request) {
    e.Accepted? && e.request.node == r.node && e.request.nonce == r.nonce
  }

  /** No later request with the nonce of request `i` was accepted. */
  predicate LastWithNonce(h: seq<Entry>, i: nat)
    requires i < |h| && h[i].Accepted?
  {
    forall k :: i < k < |h| ==> !SameNonce(h[k], h[i].request)
  }

  /** After request `i` a prune ran past the expiry of its nonce. */
  predicate Freed(c: Settings, h: seq<Entry>, i: nat)
    requires i < |h| && h[i].Accepted?
  {
    exists j :: i < j < |h| && h[j].PruneRan? && Expiry(c, h[i].clock) < h[j].at
  }

  /** The nonce of request `i` was freed before it was used again, and if it was not used again it is stored,
      with its expiry, exactly until it is freed. */
  predicate NonceAccounted(c: Settings, w: World, i: nat)
    requires i < |w.history| && w.history[i].Accepted?
  {
    var key := (w.history[i].request.node, w.history[i].request.nonce);
    && (LastWithNonce(w.history, i) || Freed(c, w.history, i))
    && (LastWithNonce(w.history, i) ==>
          && (key in w.state.nonces <==> !Freed(c, w.history, i))
          && (key in w.state.nonces ==> w.state.nonces[key] == Expiry(c, w.history[i].clock)))
  }

  ghost predicate NoncesAccounted(c: Settings, w: World) {
    forall i :: 0 <= i < |w.history| && w.history[i].Accepted? ==> NonceAccounted(c, w, i)
  }

  lemma FreedAfter(c: Settings, h: seq<Entry>, e: Entry, i: nat)
    requires i < |h| && h[i].Accepted?
    ensures Freed(c, h + [e], i) <==> Freed(c, h, i) || (e.PruneRan? && Expiry(c, h[i].clock) < e.at)
    ensures LastWithNonce(h + [e], i) <==> LastWithNonce(h, i) && !SameNonce(e, h[i].request)
  {
    var h' := h + [e];
    assert forall k :: 0 <= k < |h| ==> h'[k] == h[k];
    assert h'[|h|] == e;
  }

  lemma ReceiveAccounted(c: Settings, w: World, r: Request, clock: Time)
    requires NoncesAccounted(c, w) && Refusal(c, w.state, r, clock).None?
    ensures NoncesAccounted(c, Next(c, w, Receive(r, clock)))
  {
    var w' := Next(c, w, Receive(r, clock));
    forall i | 0 <= i < |w'.history| && w'.history[i].Accepted? ensures NonceAccounted(c, w', i) {
      if i < |w.history| {
        assert NonceAccounted(c, w, i);
        FreedAfter(c, w.history, Accepted(r, clock), i);
      }
    }
  }

  lemma PruneAccounted(c: Settings, w: World, clock: Time)
    requires NoncesAccounted(c, w)
    ensures NoncesAccounted(c, Next(c, w, Prune(clock)))
  {
    var w' := Next(c, w, Prune(clock));
    forall i | 0 <= i < |w'.history| && w'.history[i].Accepted? ensures NonceAccounted(c, w', i) {
      assert NonceAccounted(c, w, i);
      FreedAfter(c, w.history, PruneRan(Seconds(clock)), i);
    }
  }

  lemma {:induction false} RunAccounted(c: Settings, steps: seq<Step>)
    ensures NoncesAccounted(c, Run(c, steps))
  {
    if steps != [] {
      var front, step := steps[..|steps| - 1], steps[|steps| - 1];
      var w := Run(c, front);
      RunAccounted(c, front);
      match step {
        case PutNode(_, _, _) =>
          assert forall i :: 0 <= i < |w.history| && w.history[i].Accepted? ==> NonceAccounted(c, w, i);
        case Receive(r, clock) =>
          if Refusal(c, w.state, r, clock).None? {
            ReceiveAccounted(c, w, r, clock);
          }
        case Prune(clock) => PruneAccounted(c, w, clock);
      }
    }
  }

  /** Everything but the nonce: the same request would be accepted if no nonce were stored. */
  predicate PassesOtherChecks(c: Settings, s: AuthState, r: Request, clock: Time) {
    Refusal(c, s.(nonces := map[]), r, clock).None?
  }

  /** A nonce that was used is accepted again exactly when a prune ran past its expiry after its last use. */
  lemma NonceFreedIff(c: Settings, steps: seq<Step>, r: Request, clock: Time, i: nat)
    requires i < |Run(c, steps).history| && SameNonce(Run(c, steps).history[i], r)
    requires LastWithNonce(Run(c, steps).history, i)
    requires PassesOtherChecks(c, Run(c, steps).state, r, clock)
    ensures Refusal(c, Run(c, steps).state, r, clock).None? <==> Freed(c, Run(c, steps).history, i)
  {
    RunAccounted(c, steps);
    assert NonceAccounted(c, Run(c, steps), i);
  }

  // ---- what nonces alone would let through ----

  function ClockOf(step: Step): Option<Time> {
    if step.PutNode? then None else Some(step.clock)
  }

  /** The clock never goes back. */
  predicate Growing(steps: seq<Step>) {
    forall i, j | 0 <= i < j < |steps| && ClockOf(steps[i]).Some? && ClockOf(steps[j]).Some? ::
      ClockOf(steps[i]).value <= ClockOf(steps[j]).value
  }

  /** The very request that was accepted comes again and passes every check but the last, on the timestamp. */
  ghost predicate OnlyTimestampStops(c: Settings, steps: seq<Step>, r: Request, clock: Time) {
    && Growing(steps + [Receive(r, clock)])
    && (exists i :: 0 <= i < |Run(c, steps).history| && SameRequest(Run(c, steps).history[i], r))
    && Refusal(c, Run(c, steps).state, r, clock) == Some(TimestampReplay)
  }

  predicate SameRequest(e: Entry, r: Request) {
    e.Accepted? && e.request == r
  }

  lemma SecondsShift(t: Time, n: nat)
    ensures Seconds(t + n * SECOND) == Seconds(t) + n * SECOND
  {
  }

  lemma SecondsOrder(t: Time, u: Time)
    requires t <= u
    ensures Seconds(t) <= Seconds(u)
  {
  }

  /** Nothing in the history is later than the latest clock, and accepted requests were in the window. */
  lemma {:induction false} HistoryInTime(c: Settings, steps: seq<Step>, clock: Time)
    requires forall i :: 0 <= i < |steps| && ClockOf(steps[i]).Some? ==> ClockOf(steps[i]).value <= clock
    ensures forall e :: e in Run(c, steps).history ==>
              if e.PruneRan? then e.at <= Seconds(clock)
              else e.request.requestTime.Some? && !Skewed(c, e.clock, e.request.requestTime.value)
  {
    if steps != [] {
      var front, step := steps[..|steps| - 1], steps[|steps| - 1];
      HistoryInTime(c, front, clock);
      if step.Prune? {
        SecondsOrder(step.clock, clock);
      }
    }
  }

  /** A stamp may lie one skew ahead, so a request can be repeated for two skews. */
  lemma WindowBound(c: Settings, accepted: Time, again: Time, stamp: Time, prunedAt: Time)
    requires !Skewed(c, accepted, stamp) && !Skewed(c, again, stamp)
    requires Expiry(c, accepted) < prunedAt <= Seconds(again)
    ensures c.ttlSec < 2 * c.skewSec
  {
    SecondsShift(accepted, c.ttlSec);
    SecondsShift(accepted, 2 * c.skewSec);
    SecondsOrder(again, accepted + 2 * c.skewSec * SECOND);
  }

  lemma RepeatNeedsShortLife(c: Settings, steps: seq<Step>, r: Request, clock: Time)
    requires OnlyTimestampStops(c, steps, r, clock)
    ensures c.ttlSec < 2 * c.skewSec
  {
    var h := Run(c, steps).history;
    var i :| 0 <= i < |h| && SameRequest(h[i], r);
    RunAccounted(c, steps);
    assert NonceAccounted(c, Run(c, steps), i);
    var j :| i < j < |h| && h[j].PruneRan? && Expiry(c, h[i].clock) < h[j].at;
    var all := steps + [Receive(r, clock)];
    assert forall k :: 0 <= k < |steps| ==> all[k] == steps[k];
    assert all[|steps|] == Receive(r, clock);
    HistoryInTime(c, steps, clock);
    assert h[i] in h && h[j] in h;
    WindowBound(c, h[i].clock, clock, r.requestTime.value, h[j].at);
  }

  /** The run that shows it: a stamp one skew ahead, repeated two skews later, just after a prune. */
  lemma RepeatRun(c: Settings)
    requires c.ttlSec < 2 * c.skewSec
    ensures var end := 2 * c.skewSec * SECOND;
            var r := Request("n", "1", "x", "s", Some(c.skewSec * SECOND), true);
            OnlyTimestampStops(c, [PutNode("n", true, true), Receive(r, 0), Prune(end)], r, end)
  {
    var end := 2 * c.skewSec * SECOND;
    var r := Request("n", "1", "x", "s", Some(c.skewSec * SECOND), true);
    var s1 := [PutNode("n", true, true)];
    var s2 := s1 + [Receive(r, 0)];
    var s3 := s2 + [Prune(end)];
    assert s1 == [] + s1 && Run(c, []) == START;
    RunStep(c, [], PutNode("n", true, true));
    RunStep(c, s1, Receive(r, 0));
    RunStep(c, s2, Prune(end));
    assert Run(c, s1) == World(AuthState(map["n" := NodeRow(true, true, None)], map[]), []);
    assert Run(c, s2).history == [Accepted(r, 0)];
    assert Run(c, s2).state.nodes["n"] == NodeRow(true, true, Some("1"));
    SecondsShift(0, c.ttlSec);
    SecondsShift(0, 2 * c.skewSec);
    assert Run(c, s3).state.nonces == map[];
    assert SameRequest(Run(c, s3).history[0], r);
    TextLessIrreflexive("1");
    assert s3 == [PutNode("n", true, true), Receive(r, 0), Prune(end)];
  }

  /** With the default settings the stamp lies five minutes ahead and the repeat comes ten minutes later. */
  lemma DefaultsRepeat()
    ensures var r := Request("n", "1", "x", "s", Some(300 * SECOND), true);
            var end := 600 * SECOND;
            OnlyTimestampStops(DEFAULTS, [PutNode("n", true, true), Receive(r, 0), Prune(end)], r, end)
  {
    RepeatRun(DEFAULTS);
  }

  /** With a clock that never goes back, the very same request can get past the nonce check, so that only the
      growing timestamps stop it, exactly when a nonce lives shorter than twice the accepted skew. */
  lemma NoncesAloneFailIff(c: Settings)
    ensures (exists steps, r, clock :: OnlyTimestampStops(c, steps, r, clock)) <==> c.ttlSec < 2 * c.skewSec
  {
    if steps, r, clock :| OnlyTimestampStops(c, steps, r, clock) {
      RepeatNeedsShortLife(c, steps, r, clock);
    }
    if c.ttlSec < 2 * c.skewSec {
      RepeatRun(c);
    }
  }
}

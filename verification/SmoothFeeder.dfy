/** The buffer behind a live chart: batches are fetched into a buffer, ticks move one record at a time onto
    the screen, and what is on screen is cut to a window and downsampled. */
module SmoothFeeder {
  import opened Common
  import opened Lttb

  /** `windowMs` is None when the window is unbounded. */
  datatype Config = Config(maxPoints: int, windowMs: Option<real>)

  /** `lastSeenX` is None for minus infinity. */
  datatype State = State(visible: seq<Sample>, buffer: seq<Sample>, lastSeenX: Option<real>, firstFill: bool)

  function Cleared(): State {
    State([], [], None, true)
  }

  datatype Bound = Unbounded | Above(x: real) | AtLeast(x: real)

  predicate Meets(b: Bound, x: real) {
    match b
    case Unbounded => true
    case Above(bound) => bound < x
    case AtLeast(bound) => bound <= x
  }

  function Filter(records: seq<Sample>, b: Bound): seq<Sample> {
    if records == [] then []
    else
      var last := records[|records| - 1];
      Filter(records[..|records| - 1], b) + if Meets(b, last.x) then [last] else []
  }

  function SeenBound(lastSeenX: Option<real>): Bound {
    if lastSeenX.Some? then Above(lastSeenX.value) else Unbounded
  }

  function Unseen(s: State, records: seq<Sample>): seq<Sample> {
    Filter(records, SeenBound(s.lastSeenX))
  }

  /** The records no further than `width` before the last. */
  function SlideWindow(records: seq<Sample>, width: real): seq<Sample> {
    if records == [] then []
    else Filter(records, AtLeast(records[|records| - 1].x - width))
  }

  /** `records.slice(start)`, where a negative start counts from the end. */
  function SliceFrom(records: seq<Sample>, start: int): seq<Sample> {
    if start < 0 then records[Max(|records| + start, 0)..] else records[Min(start, |records|)..]
  }

  function Limit(c: Config, records: seq<Sample>): seq<Sample> {
    if |records| > c.maxPoints then LttbRecords(records, c.maxPoints) else records
  }

  function Windowed(c: Config, records: seq<Sample>): seq<Sample> {
    if c.windowMs.Some? then SlideWindow(records, c.windowMs.value) else records
  }

  function FirstFill(c: Config, visible: seq<Sample>, added: seq<Sample>): seq<Sample> {
    Limit(c, Windowed(c, visible + added))
  }

  /** What a tick puts on screen before it limits the number of points. */
  function Ticked(c: Config, visible: seq<Sample>, next: Sample): seq<Sample> {
    var appended := visible + [next];
    if c.windowMs.Some? then SlideWindow(appended, c.windowMs.value * 2.0) else appended
  }

  function Fetch(c: Config, s: State, records: seq<Sample>): State {
    var added := Unseen(s, records);
    if added == [] then s
    else
      var seen := s.(lastSeenX := Some(added[|added| - 1].x));
      if s.firstFill then seen.(firstFill := false, visible := FirstFill(c, s.visible, added))
      else seen.(buffer := s.buffer + added)
  }

  /** At most the last `2 * maxPoints` records. */
  function Capped(c: Config, records: seq<Sample>): seq<Sample> {
    var cap := c.maxPoints * 2;
    if |records| > cap then SliceFrom(records, -cap) else records
  }

  /** What is on screen after `next` was added. */
  function NextVisible(c: Config, visible: seq<Sample>, next: Sample): seq<Sample> {
    Limit(c, Capped(c, Ticked(c, visible, next)))
  }

  function Tick(c: Config, s: State): State {
    if s.buffer == [] then s
    else s.(buffer := s.buffer[1..], visible := NextVisible(c, s.visible, s.buffer[0]))
  }

  // ---- what a fetch and a tick do, told without the functions above ----

  /** `out` has the records at the indices `idx`, which grow. */
  predicate PicksOut(out: seq<Sample>, records: seq<Sample>, idx: seq<nat>) {
    && |idx| == |out|
    && (forall k :: 0 <= k < |idx| ==> idx[k] < |records| && out[k] == records[idx[k]])
    && (forall i, j :: 0 <= i < j < |idx| ==> idx[i] < idx[j])
  }

  /** Every record past the last x seen, in order, and no other. */
  ghost predicate NewRecords(added: seq<Sample>, records: seq<Sample>, lastSeenX: Option<real>) {
    exists idx :: PicksOut(added, records, idx)
                  && forall i: nat :: i < |records| ==>
                       (i in idx <==> lastSeenX.None? || lastSeenX.value < records[i].x)
  }

  /** Every record at most `windowMs` before the last, in order, and no other; all if there is no window. */
  ghost predicate Inside(kept: seq<Sample>, records: seq<Sample>, windowMs: Option<real>)
    requires records != []
  {
    exists idx :: PicksOut(kept, records, idx)
                  && forall i: nat :: i < |records| ==>
                       (i in idx <==>
                        windowMs.None? || records[|records| - 1].x - windowMs.value <= records[i].x)
  }

  /** What is shown of `records`: those inside the window, downsampled only if they are too many. */
  ghost predicate ShownOf(c: Config, records: seq<Sample>, windowMs: Option<real>, visible: seq<Sample>)
    requires records != []
  {
    exists kept :: Inside(kept, records, windowMs)
                   && visible == if |kept| <= c.maxPoints then kept else LttbRecords(kept, c.maxPoints)
  }

  /** A fetch takes in exactly the new records: on screen the first time, behind the buffer later. */
  ghost predicate FetchAnswer(c: Config, s: State, s': State, records: seq<Sample>) {
    exists added :: NewRecords(added, records, s.lastSeenX) && TakenIn(c, s, s', added)
  }

  ghost predicate TakenIn(c: Config, s: State, s': State, added: seq<Sample>) {
    && (added == [] ==> s' == s)
    && (added != [] ==>
          && s'.lastSeenX == Some(added[|added| - 1].x) && !s'.firstFill
          && (s.firstFill ==> s'.buffer == s.buffer && ShownOf(c, s.visible + added, c.windowMs, s'.visible))
          && (!s.firstFill ==> s'.visible == s.visible && s'.buffer == s.buffer + added))
  }

  /** A tick shows the oldest waiting record after those on screen. */
  ghost predicate TickAnswer(c: Config, s: State, s': State) {
    if s.buffer == [] then s' == s
    else
      && s'.buffer == s.buffer[1..] && s'.lastSeenX == s.lastSeenX && s'.firstFill == s.firstFill
      && (|s.visible| + 1 <= c.maxPoints * 2 ==>
            ShownOf(c, s.visible + [s.buffer[0]], DoubleWindow(c), s'.visible))
  }

  function DoubleWindow(c: Config): Option<real> {
    if c.windowMs.Some? then Some(c.windowMs.value * 2.0) else None
  }

  lemma PickNext(out: seq<Sample>, records: seq<Sample>, idx: seq<nat>, last: Sample)
    requires PicksOut(out, records, idx)
    ensures PicksOut(out, records + [last], idx)
    ensures PicksOut(out + [last], records + [last], idx + [|records|])
  {
  }

  lemma {:induction false} FilterIs(records: seq<Sample>, b: Bound) returns (idx: seq<nat>)
    ensures PicksOut(Filter(records, b), records, idx)
    ensures forall i: nat :: i < |records| ==> (i in idx <==> Meets(b, records[i].x))
  {
    idx := [];
    if records != [] {
      var front, last := records[..|records| - 1], records[|records| - 1];
      var before := FilterIs(front, b);
      PickNext(Filter(front, b), front, before, last);
      assert records == front + [last];
      idx := if Meets(b, last.x) then before + [|front|] else before;
      assert Filter(front, b) + [] == Filter(front, b);
      forall i: nat | i < |records| ensures i in idx <==> Meets(b, records[i].x) {
        if i < |front| {
          assert records[i] == front[i];
        } else {
          assert i !in before;
        }
      }
    }
  }

  lemma UnseenAreNew(s: State, records: seq<Sample>)
    ensures NewRecords(Unseen(s, records), records, s.lastSeenX)
  {
    var idx := FilterIs(records, SeenBound(s.lastSeenX));
    assert PicksOut(Unseen(s, records), records, idx);
  }

  lemma SlidIsInside(records: seq<Sample>, width: real)
    requires records != []
    ensures Inside(SlideWindow(records, width), records, Some(width))
  {
    var idx := FilterIs(records, AtLeast(records[|records| - 1].x - width));
    assert PicksOut(SlideWindow(records, width), records, idx);
  }

  lemma AllInside(records: seq<Sample>)
    requires records != []
    ensures Inside(records, records, None)
  {
    var idx := FilterIs(records, Unbounded);
    FilterAll(records, Unbounded);
    assert PicksOut(records, records, idx);
  }

  lemma LimitShows(c: Config, records: seq<Sample>, windowMs: Option<real>, kept: seq<Sample>)
    requires records != [] && Inside(kept, records, windowMs)
    ensures ShownOf(c, records, windowMs, Limit(c, kept))
  {
  }

  lemma FirstFillIs(c: Config, visible: seq<Sample>, added: seq<Sample>)
    requires added != []
    ensures ShownOf(c, visible + added, c.windowMs, FirstFill(c, visible, added))
  {
    var all := visible + added;
    if c.windowMs.Some? {
      SlidIsInside(all, c.windowMs.value);
    } else {
      AllInside(all);
    }
    LimitShows(c, all, c.windowMs, Windowed(c, all));
  }

  lemma FetchMeans(c: Config, s: State, records: seq<Sample>)
    ensures FetchAnswer(c, s, Fetch(c, s, records), records)
  {
    UnseenAreNew(s, records);
    var added := Unseen(s, records);
    if added != [] && s.firstFill {
      FirstFillIs(c, s.visible, added);
    }
    assert TakenIn(c, s, Fetch(c, s, records), added);
  }

  lemma {:induction false} FilterShorter(records: seq<Sample>, b: Bound)
    ensures |Filter(records, b)| <= |records|
  {
    if records != [] {
      FilterShorter(records[..|records| - 1], b);
    }
  }

  lemma TickedIs(c: Config, visible: seq<Sample>, next: Sample)
    ensures Inside(Ticked(c, visible, next), visible + [next], DoubleWindow(c))
    ensures |Ticked(c, visible, next)| <= |visible| + 1
  {
    var all := visible + [next];
    if c.windowMs.Some? {
      SlidIsInside(all, c.windowMs.value * 2.0);
      FilterShorter(all, AtLeast(all[|all| - 1].x - c.windowMs.value * 2.0));
    } else {
      AllInside(all);
    }
  }

  lemma NextVisibleIs(c: Config, visible: seq<Sample>, next: Sample)
    requires |visible| + 1 <= c.maxPoints * 2
    ensures ShownOf(c, visible + [next], DoubleWindow(c), NextVisible(c, visible, next))
  {
    TickedIs(c, visible, next);
    CapKeeps(c, Ticked(c, visible, next));
    LimitShows(c, visible + [next], DoubleWindow(c), Ticked(c, visible, next));
  }

  lemma CapKeeps(c: Config, records: seq<Sample>)
    requires |records| <= c.maxPoints * 2
    ensures Capped(c, records) == records
  {
  }

  lemma TickMeans(c: Config, s: State)
    ensures TickAnswer(c, s, Tick(c, s))
  {
    if s.buffer != [] && |s.visible| + 1 <= c.maxPoints * 2 {
      NextVisibleIs(c, s.visible, s.buffer[0]);
    }
  }

  class Feeder {
    const c: Config
    var visible: seq<Sample>
    var buffer: seq<Sample>
    var lastSeenX: Option<real>
    var firstFill: bool

    function Now(): State
      reads this
    {
      State(visible, buffer, lastSeenX, firstFill)
    }

    constructor (c: Config)
      ensures this.c == c && Now() == Cleared()
    {
      this.c := c;
      visible, buffer, lastSeenX, firstFill := [], [], None, true;
    }

    method Reset()
      modifies this
      ensures Now() == Cleared()
    {
      visible, buffer, lastSeenX, firstFill := [], [], None, true;
    }

    method RunFetch(records: seq<Sample>)
      modifies this
      ensures Now() == Fetch(c, old(Now()), records)
      ensures FetchAnswer(c, old(Now()), Now(), records)
    {
      FetchMeans(c, Now(), records);
      var added := Unseen(Now(), records);
      if |added| > 0 {
        lastSeenX := Some(added[|added| - 1].x);
        if firstFill {
          firstFill := false;
          var all := visible + added;
          if c.windowMs.Some? {
            all := SlideWindow(all, c.windowMs.value);
          }
          visible := Limit(c, all);
        } else {
          buffer := buffer + added;
        }
      }
    }

    method RunTick()
      modifies this
      ensures Now() == Tick(c, old(Now()))
      ensures TickAnswer(c, old(Now()), Now())
    {
      TickMeans(c, Now());
      if |buffer| > 0 {
        var next := buffer[0];
        buffer := buffer[1..];
        visible := UpdateVisible(c, visible, next);
      }
    }
  }

  /** In order, at most `maxPoints` within twice the window, and ending with the new record. */
  method UpdateVisible(c: Config, previous: seq<Sample>, next: Sample) returns (visible: seq<Sample>)
    ensures visible == NextVisible(c, previous, next)
    ensures Proper(c) && Ascending(previous + [next]) && |previous| <= c.maxPoints ==>
              Shown(c, previous + [next], visible) && visible[|visible| - 1] == next
  {
    visible := AddAndCap(c, previous, next);
    visible := Reduce(c, visible);
    if Proper(c) && Ascending(previous + [next]) && |previous| <= c.maxPoints {
      TickShown(c, previous, next);
    }
  }

  method AddAndCap(c: Config, previous: seq<Sample>, next: Sample) returns (visible: seq<Sample>)
    ensures visible == Capped(c, Ticked(c, previous, next))
  {
    visible := previous + [next];
    if c.windowMs.Some? {
      visible := SlideWindow(visible, c.windowMs.value * 2.0);
    }
    var cap := c.maxPoints * 2;
    if |visible| > cap {
      visible := SliceFrom(visible, -cap);
    }
  }

  method Reduce(c: Config, records: seq<Sample>) returns (visible: seq<Sample>)
    ensures visible == Limit(c, records)
  {
    visible := records;
    if |visible| > c.maxPoints {
      visible := LttbRecords(visible, c.maxPoints);
    }
  }

  // ---- runs ----

  datatype Step = FetchStep(records: seq<Sample>) | TickStep | ResetStep

  /** `entered` lists every record taken in since the last reset. */
  datatype World = World(now: State, entered: seq<Sample>)

  /** Batches come in ascending order; any other batch is left out of the runs considered. */
  function Next(c: Config, w: World, step: Step): World {
    match step
    case FetchStep(records) =>
      if !Ascending(records) then w
      else World(Fetch(c, w.now, records), w.entered + Unseen(w.now, records))
    case TickStep => w.(now := Tick(c, w.now))
    case ResetStep => World(Cleared(), [])
  }

  function Run(c: Config, steps: seq<Step>): World {
    if steps == [] then World(Cleared(), []) else Next(c, Run(c, steps[..|steps| - 1]), steps[|steps| - 1])
  }

  predicate NotAbove(records: seq<Sample>, bound: Option<real>) {
    forall r :: r in records ==> bound.Some? && r.x <= bound.value
  }

  /** No record is more than twice the window before the last one shown. */
  predicate InWindow(c: Config, visible: seq<Sample>) {
    c.windowMs.Some? && visible != [] ==>
      forall r :: r in visible ==> visible[|visible| - 1].x - c.windowMs.value * 2.0 <= r.x
  }

  ghost predicate Ok(c: Config, s: State) {
    && Ascending(s.visible + s.buffer)
    && NotAbove(s.visible + s.buffer, s.lastSeenX)
    && |s.visible| <= c.maxPoints
    && InWindow(c, s.visible)
    && (s.firstFill ==> s.visible == [] && s.buffer == [])
  }

  ghost predicate Inv(c: Config, w: World) {
    && Ok(c, w.now)
    && Ascending(w.entered)
    && NotAbove(w.entered, w.now.lastSeenX)
    && TakenFrom(w.now.visible + w.now.buffer, w.entered)
  }

  lemma {:induction false} FilterMembers(records: seq<Sample>, b: Bound)
    ensures |Filter(records, b)| <= |records|
    ensures forall r :: r in Filter(records, b) ==> r in records && Meets(b, r.x)
  {
    if records != [] {
      FilterMembers(records[..|records| - 1], b);
    }
  }

  lemma {:induction false} FilterTaken(records: seq<Sample>, b: Bound)
    ensures TakenFrom(Filter(records, b), records)
  {
    if records != [] {
      FilterTaken(records[..|records| - 1], b);
      assert records == records[..|records| - 1] + [records[|records| - 1]];
    }
  }

  lemma FilterKeepsLast(records: seq<Sample>, b: Bound)
    requires records != [] && Meets(b, records[|records| - 1].x)
    ensures var out := Filter(records, b);
            out != [] && out[|out| - 1] == records[|records| - 1]
  {
  }

  lemma {:induction false} FilterAscending(records: seq<Sample>, b: Bound)
    requires Ascending(records)
    ensures Ascending(Filter(records, b))
  {
    if records != [] {
      var front, last := records[..|records| - 1], records[|records| - 1];
      assert records == front + [last];
      AscendingParts(front, [last]);
      FilterAscending(front, b);
      FilterMembers(front, b);
      if Meets(b, last.x) {
        AscendingConcat(Filter(front, b), [last]);
      } else {
        assert Filter(records, b) == Filter(front, b);
      }
    }
  }

  lemma AscendingConcat(a: seq<Sample>, b: seq<Sample>)
    requires Ascending(a) && Ascending(b)
    requires forall r, q :: r in a && q in b ==> r.x <= q.x
    ensures Ascending(a + b)
  {
  }

  lemma AscendingParts(a: seq<Sample>, b: seq<Sample>)
    requires Ascending(a + b)
    ensures Ascending(a) && Ascending(b)
    ensures forall r, q :: r in a && q in b ==> r.x <= q.x
  {
    var all := a + b;
    assert forall i :: 0 <= i < |a| ==> all[i] == a[i];
    assert forall i :: 0 <= i < |b| ==> all[|a| + i] == b[i];
  }

  lemma SlideWindowEffect(records: seq<Sample>, width: real)
    requires Ascending(records) && 0.0 <= width
    ensures var out := SlideWindow(records, width);
            && Ascending(out) && |out| <= |records| && TakenFrom(out, records)
            && (records != [] ==> out != [] && out[|out| - 1] == records[|records| - 1])
            && (records != [] ==> forall r :: r in out ==> out[|out| - 1].x - width <= r.x)
  {
    if records != [] {
      var b := AtLeast(records[|records| - 1].x - width);
      FilterAscending(records, b);
      FilterMembers(records, b);
      FilterTaken(records, b);
      FilterKeepsLast(records, b);
    }
  }

  /** Limiting the number of points keeps order and last point, and for more than two points the limit. */
  lemma LimitEffect(c: Config, records: seq<Sample>)
    requires Ascending(records) && 2 < c.maxPoints
    ensures var out := Limit(c, records);
            && Ascending(out) && |out| <= c.maxPoints && TakenFrom(out, records)
            && (records != [] ==> out != [] && out[|out| - 1] == records[|records| - 1])
  {
    RecordsStayAscending(records, c.maxPoints);
  }

  predicate Proper(c: Config) {
    2 < c.maxPoints && (c.windowMs.Some? ==> 0.0 <= c.windowMs.value)
  }

  /** What may be shown: in order, within limits, only records already there, and the newest of them. */
  ghost predicate Shown(c: Config, before: seq<Sample>, visible: seq<Sample>) {
    && Ascending(visible) && |visible| <= c.maxPoints
    && InWindow(c, visible)
    && TakenFrom(visible, before)
    && (before != [] ==> visible != [] && visible[|visible| - 1] == before[|before| - 1])
  }

  lemma TakenMembers(out: seq<Sample>, records: seq<Sample>)
    requires TakenFrom(out, records)
    ensures forall r :: r in out ==> r in records
  {
    forall r | r in out ensures r in records {
      assert r in multiset(out);
    }
  }

  lemma LimitShown(c: Config, before: seq<Sample>, records: seq<Sample>)
    requires Proper(c) && Ascending(records) && InWindow(c, records) && TakenFrom(records, before)
    requires before != [] ==> records != [] && records[|records| - 1] == before[|before| - 1]
    ensures Shown(c, before, Limit(c, records))
  {
    LimitEffect(c, records);
    TakenMembers(Limit(c, records), records);
  }

  lemma FirstFillShown(c: Config, added: seq<Sample>)
    requires Proper(c) && Ascending(added)
    ensures Shown(c, added, FirstFill(c, [], added))
  {
    assert [] + added == added;
    if c.windowMs.Some? {
      SlideWindowEffect(added, c.windowMs.value);
    }
    LimitShown(c, added, Windowed(c, added));
  }

  lemma TickedEffect(c: Config, visible: seq<Sample>, next: Sample)
    requires Proper(c) && Ascending(visible + [next])
    ensures var records := Ticked(c, visible, next);
            && Ascending(records) && InWindow(c, records) && |records| <= |visible| + 1
            && TakenFrom(records, visible + [next])
            && records != [] && records[|records| - 1] == next
  {
    if c.windowMs.Some? {
      SlideWindowEffect(visible + [next], c.windowMs.value * 2.0);
    }
  }

  /** A tick adds one record to at most `maxPoints`, so the cap of twice that many never applies. */
  lemma TickShown(c: Config, visible: seq<Sample>, next: Sample)
    requires Proper(c) && Ascending(visible + [next]) && |visible| <= c.maxPoints
    ensures |Ticked(c, visible, next)| <= c.maxPoints * 2
    ensures Shown(c, visible + [next], Limit(c, Ticked(c, visible, next)))
  {
    TickedEffect(c, visible, next);
    LimitShown(c, visible + [next], Ticked(c, visible, next));
  }

  /** New records put after records already seen keep the order, up to the new last x. */
  lemma AppendUnseen(seen: seq<Sample>, lastSeenX: Option<real>, added: seq<Sample>)
    requires Ascending(seen) && NotAbove(seen, lastSeenX)
    requires added != [] && Ascending(added)
    requires forall r :: r in added ==> Meets(SeenBound(lastSeenX), r.x)
    ensures Ascending(seen + added)
    ensures NotAbove(seen + added, Some(added[|added| - 1].x))
  {
    AscendingConcat(seen, added);
    assert added[|added| - 1] in added;
  }

  lemma UnseenAscending(s: State, records: seq<Sample>)
    requires Ascending(records)
    ensures Ascending(Unseen(s, records))
    ensures forall r :: r in Unseen(s, records) ==> Meets(SeenBound(s.lastSeenX), r.x)
  {
    FilterAscending(records, SeenBound(s.lastSeenX));
    FilterMembers(records, SeenBound(s.lastSeenX));
  }

  /** The first batch goes straight to the screen. */
  lemma FirstBatchOk(c: Config, s: State, added: seq<Sample>, shown: seq<Sample>)
    requires Ok(c, s) && s.firstFill
    requires added != [] && Ascending(added) && Shown(c, added, shown)
    ensures Ok(c, State(shown, [], Some(added[|added| - 1].x), false))
  {
    TakenMembers(shown, added);
    assert shown + [] == shown;
  }

  /** A later batch waits behind what is there. */
  lemma LaterBatchOk(c: Config, s: State, added: seq<Sample>)
    requires Ok(c, s)
    requires added != [] && Ascending(added)
    requires forall r :: r in added ==> Meets(SeenBound(s.lastSeenX), r.x)
    ensures Ok(c, State(s.visible, s.buffer + added, Some(added[|added| - 1].x), false))
  {
    AppendUnseen(s.visible + s.buffer, s.lastSeenX, added);
    assert s.visible + s.buffer + added == s.visible + (s.buffer + added);
  }

  lemma FetchOk(c: Config, s: State, records: seq<Sample>)
    requires Proper(c) && Ok(c, s) && Ascending(records)
    ensures Ok(c, Fetch(c, s, records))
  {
    UnseenAscending(s, records);
    var added := Unseen(s, records);
    if added != [] {
      if s.firstFill {
        FirstFillShown(c, added);
        FirstBatchOk(c, s, added, FirstFill(c, [], added));
      } else {
        LaterBatchOk(c, s, added);
      }
    }
  }

  lemma FetchInv(c: Config, w: World, records: seq<Sample>)
    requires Proper(c) && Inv(c, w) && Ascending(records)
    ensures Inv(c, Next(c, w, FetchStep(records)))
  {
    FetchOk(c, w.now, records);
    UnseenAscending(w.now, records);
    var added := Unseen(w.now, records);
    if added == [] {
      assert w.entered + [] == w.entered;
    } else {
      AppendUnseen(w.entered, w.now.lastSeenX, added);
      FetchTaken(c, w, records);
    }
  }

  lemma FetchTaken(c: Config, w: World, records: seq<Sample>)
    requires Proper(c) && Inv(c, w) && Ascending(Unseen(w.now, records)) && Unseen(w.now, records) != []
    ensures var u := Next(c, w, FetchStep(records));
            Ascending(records) ==> TakenFrom(u.now.visible + u.now.buffer, u.entered)
  {
    var added := Unseen(w.now, records);
    if w.now.firstFill {
      FirstFillShown(c, added);
      FirstTaken(FirstFill(c, [], added), w.entered, added);
    } else {
      LaterTaken(w.now.visible, w.now.buffer, w.entered, added);
    }
  }

  lemma FirstTaken(shown: seq<Sample>, entered: seq<Sample>, added: seq<Sample>)
    requires TakenFrom(shown, added)
    ensures TakenFrom(shown + [], entered + added)
  {
    assert shown + [] == shown;
  }

  lemma LaterTaken(visible: seq<Sample>, buffer: seq<Sample>, entered: seq<Sample>, added: seq<Sample>)
    requires TakenFrom(visible + buffer, entered)
    ensures TakenFrom(visible + (buffer + added), entered + added)
  {
    assert visible + (buffer + added) == visible + buffer + added;
  }

  lemma CapIdle(c: Config, s: State)
    requires Proper(c) && Ok(c, s) && s.buffer != []
    ensures |Ticked(c, s.visible, s.buffer[0])| <= c.maxPoints * 2
    ensures Capped(c, Ticked(c, s.visible, s.buffer[0])) == Ticked(c, s.visible, s.buffer[0])
    ensures Shown(c, s.visible + [s.buffer[0]], NextVisible(c, s.visible, s.buffer[0]))
  {
    assert s.visible + s.buffer == s.visible + [s.buffer[0]] + s.buffer[1..];
    AscendingParts(s.visible + [s.buffer[0]], s.buffer[1..]);
    TickShown(c, s.visible, s.buffer[0]);
  }

  /** The oldest waiting record goes to the screen, which then shows `shown`. */
  lemma ShownOk(c: Config, s: State, shown: seq<Sample>)
    requires Ok(c, s) && s.buffer != [] && Shown(c, s.visible + [s.buffer[0]], shown)
    ensures Ok(c, s.(buffer := s.buffer[1..], visible := shown))
    ensures TakenFrom(shown + s.buffer[1..], s.visible + s.buffer)
  {
    var next, rest := s.buffer[0], s.buffer[1..];
    assert s.visible + s.buffer == s.visible + [next] + rest;
    AscendingParts(s.visible + [next], rest);
    TakenMembers(shown, s.visible + [next]);
    TakenMembers(shown + rest, s.visible + s.buffer);
    AscendingConcat(shown, rest);
  }

  lemma TickInv(c: Config, w: World)
    requires Proper(c) && Inv(c, w)
    ensures Inv(c, Next(c, w, TickStep))
  {
    if w.now.buffer != [] {
      CapIdle(c, w.now);
      ShownOk(c, w.now, NextVisible(c, w.now.visible, w.now.buffer[0]));
    }
  }

  lemma {:induction false} RunInv(c: Config, steps: seq<Step>)
    requires Proper(c)
    ensures Inv(c, Run(c, steps))
  {
    if steps != [] {
      var front, step := steps[..|steps| - 1], steps[|steps| - 1];
      RunInv(c, front);
      match step {
        case FetchStep(records) =>
          if Ascending(records) {
            FetchInv(c, Run(c, front), records);
          }
        case TickStep => TickInv(c, Run(c, front));
        case ResetStep =>
      }
    }
  }

  // ---- the main results ----

  /** In every run what is on screen, followed by what is waiting, is ascending and not past the newest x
      seen; the screen holds at most `maxPoints` records, all within twice the window. */
  lemma ScreenIsOrderedAndBounded(c: Config, steps: seq<Step>)
    requires Proper(c)
    ensures var s := Run(c, steps).now;
            && Ascending(s.visible + s.buffer)
            && NotAbove(s.visible + s.buffer, s.lastSeenX)
            && |s.visible| <= c.maxPoints
            && InWindow(c, s.visible)
  {
    RunInv(c, steps);
  }

  /** Between two resets every record that a later batch brings in is strictly above all records taken in
      before, and every record on screen or waiting is one of those taken in, once for each time it was. */
  lemma NoRecordEntersTwice(c: Config, steps: seq<Step>, records: seq<Sample>)
    requires Proper(c) && Ascending(records)
    ensures var w := Run(c, steps);
            && (forall r, q :: r in Unseen(w.now, records) && q in w.entered ==> q.x < r.x)
            && TakenFrom(w.now.visible + w.now.buffer, w.entered)
  {
    RunInv(c, steps);
    UnseenAscending(Run(c, steps).now, records);
  }

  predicate EndsLike(all: seq<Sample>, entered: seq<Sample>) {
    entered != [] ==> all != [] && all[|all| - 1] == entered[|entered| - 1]
  }

  /** The newest record taken in is the last one on screen or waiting. */
  ghost predicate NewestLast(w: World) {
    EndsLike(w.now.visible + w.now.buffer, w.entered)
  }

  lemma FetchNewest(c: Config, w: World, records: seq<Sample>)
    requires Proper(c) && Inv(c, w) && Ascending(records) && NewestLast(w)
    ensures NewestLast(Next(c, w, FetchStep(records)))
  {
    UnseenAscending(w.now, records);
    var added := Unseen(w.now, records);
    if added == [] {
      assert w.entered + [] == w.entered;
    } else if w.now.firstFill {
      FirstFillShown(c, added);
      EndsWithAdded([], FirstFill(c, [], added), w.entered, added);
    } else {
      EndsWithAdded(w.now.visible, w.now.buffer + added, w.entered, added);
    }
  }

  lemma EndsWithAdded(visible: seq<Sample>, rest: seq<Sample>, entered: seq<Sample>, added: seq<Sample>)
    requires added != [] && rest != [] && rest[|rest| - 1] == added[|added| - 1]
    ensures EndsLike(visible + rest, entered + added) && EndsLike(rest + [], entered + added)
  {
  }

  lemma EndsAfterTick(visible: seq<Sample>, buffer: seq<Sample>, shown: seq<Sample>, entered: seq<Sample>)
    requires buffer != [] && shown != [] && shown[|shown| - 1] == buffer[0]
    requires EndsLike(visible + buffer, entered)
    ensures EndsLike(shown + buffer[1..], entered)
  {
  }

  lemma TickIs(c: Config, w: World)
    requires w.now.buffer != []
    ensures Next(c, w, TickStep).entered == w.entered
    ensures Next(c, w, TickStep).now.buffer == w.now.buffer[1..]
    ensures Next(c, w, TickStep).now.visible == NextVisible(c, w.now.visible, w.now.buffer[0])
  {
  }

  lemma TickNewest(c: Config, w: World, next: World)
    requires Proper(c) && Inv(c, w) && NewestLast(w) && next == Next(c, w, TickStep)
    ensures NewestLast(next)
  {
    if w.now.buffer != [] {
      CapIdle(c, w.now);
      TickIs(c, w);
      EndsAfterTick(w.now.visible, w.now.buffer, next.now.visible, w.entered);
    }
  }

  lemma {:induction false} NewestIsLast(c: Config, steps: seq<Step>)
    requires Proper(c)
    ensures NewestLast(Run(c, steps))
  {
    if steps != [] {
      var front, step := steps[..|steps| - 1], steps[|steps| - 1];
      NewestIsLast(c, front);
      RunInv(c, front);
      match step {
        case FetchStep(records) =>
          if Ascending(records) {
            FetchNewest(c, Run(c, front), records);
          }
        case TickStep => TickNewest(c, Run(c, front), Run(c, steps));
        case ResetStep =>
      }
    }
  }

  function Ticks(n: nat): seq<Step> {
    if n == 0 then [] else Ticks(n - 1) + [TickStep]
  }

  lemma RunStep(c: Config, steps: seq<Step>, step: Step)
    ensures Run(c, steps + [step]) == Next(c, Run(c, steps), step)
  {
    assert (steps + [step])[..|steps|] == steps;
  }

  lemma OneMoreTick(c: Config, steps: seq<Step>, n: nat)
    ensures Run(c, steps + Ticks(n + 1)) == Next(c, Run(c, steps + Ticks(n)), TickStep)
  {
    assert steps + Ticks(n + 1) == steps + Ticks(n) + [TickStep];
    RunStep(c, steps + Ticks(n), TickStep);
  }

  lemma {:induction false} TicksDrain(c: Config, steps: seq<Step>, n: nat)
    requires n <= |Run(c, steps).now.buffer|
    ensures Run(c, steps + Ticks(n)).now.buffer == Run(c, steps).now.buffer[n..]
    ensures Run(c, steps + Ticks(n)).entered == Run(c, steps).entered
  {
    if n == 0 {
      assert steps + Ticks(0) == steps;
    } else {
      TicksDrain(c, steps, n - 1);
      TickIs(c, Run(c, steps + Ticks(n - 1)));
      OneMoreTick(c, steps, n - 1);
    }
  }

  /** As many ticks as records wait empty the buffer, and the newest record taken in is then the last shown. */
  lemma NewestIsShown(c: Config, steps: seq<Step>)
    requires Proper(c) && Run(c, steps).entered != []
    ensures var w := Run(c, steps);
            var s := Run(c, steps + Ticks(|w.now.buffer|)).now;
            s.buffer == [] && s.visible != [] && s.visible[|s.visible| - 1] == w.entered[|w.entered| - 1]
  {
    var n := |Run(c, steps).now.buffer|;
    TicksDrain(c, steps, n);
    NewestIsLast(c, steps + Ticks(n));
    LastIsShown(Run(c, steps + Ticks(n)));
  }

  lemma LastIsShown(w: World)
    requires NewestLast(w) && w.now.buffer == [] && w.entered != []
    ensures w.now.visible != [] && w.now.visible[|w.now.visible| - 1] == w.entered[|w.entered| - 1]
  {
    assert w.now.visible + [] == w.now.visible;
  }

  ghost predicate AllThere(c: Config, w: World) {
    |w.entered| <= c.maxPoints ==> w.now.visible + w.now.buffer == w.entered
  }

  lemma FetchLosesNothing(c: Config, w: World, records: seq<Sample>)
    requires Proper(c) && c.windowMs.None? && Inv(c, w) && AllThere(c, w)
    ensures AllThere(c, Next(c, w, FetchStep(records)))
  {
    var added := Unseen(w.now, records);
    assert w.now.visible + (w.now.buffer + added) == w.now.visible + w.now.buffer + added;
    assert w.now.visible + [] == w.now.visible && w.entered + [] == w.entered;
    if added != [] && w.now.firstFill {
      SmallIsShown(c, w.now.visible, added);
    }
  }

  lemma SmallIsShown(c: Config, visible: seq<Sample>, added: seq<Sample>)
    requires c.windowMs.None?
    ensures |visible + added| <= c.maxPoints ==>
              FirstFill(c, visible, added) == visible + added && FirstFill(c, visible, added) + [] == visible + added
    ensures added != [] && |visible + [added[0]]| <= c.maxPoints ==>
              NextVisible(c, visible, added[0]) == visible + [added[0]]
  {
  }

  lemma TickLosesNothing(c: Config, w: World)
    requires Proper(c) && c.windowMs.None? && AllThere(c, w)
    ensures AllThere(c, Next(c, w, TickStep))
  {
    if w.now.buffer != [] && |w.entered| <= c.maxPoints {
      assert w.now.visible + w.now.buffer == w.now.visible + [w.now.buffer[0]] + w.now.buffer[1..];
      SmallIsShown(c, w.now.visible, w.now.buffer);
    }
  }

  /** Without a window, and until more than `maxPoints` records were taken in, all of them are on screen or
      waiting, in the order in which they came. */
  lemma {:induction false} NothingIsLost(c: Config, steps: seq<Step>)
    requires Proper(c) && c.windowMs.None?
    ensures AllThere(c, Run(c, steps))
  {
    if steps != [] {
      var front, step := steps[..|steps| - 1], steps[|steps| - 1];
      RunInv(c, front);
      NothingIsLost(c, front);
      match step {
        case FetchStep(records) => FetchLosesNothing(c, Run(c, front), records);
        case TickStep => TickLosesNothing(c, Run(c, front));
        case ResetStep =>
      }
    }
  }

  /** The cap of twice `maxPoints` never cuts anything off. */
  lemma CapNeverFires(c: Config, steps: seq<Step>)
    requires Proper(c) && Run(c, steps).now.buffer != []
    ensures var s := Run(c, steps).now;
            |Ticked(c, s.visible, s.buffer[0])| <= c.maxPoints * 2
  {
    RunInv(c, steps);
    CapIdle(c, Run(c, steps).now);
  }

  /** With any window, or none, the limit holds in every run exactly when it is above two: for two or less
      the downsampler returns its input. */
  lemma LimitHoldsIffAboveTwo(c: Config)
    requires c.windowMs.Some? ==> 0.0 <= c.windowMs.value
    ensures (forall steps :: |Run(c, steps).now.visible| <= c.maxPoints) <==> 2 < c.maxPoints
  {
    if 2 < c.maxPoints {
      forall steps ensures |Run(c, steps).now.visible| <= c.maxPoints {
        RunInv(c, steps);
      }
    } else {
      ThreeAreShown(c);
    }
  }

  lemma WindowShowsAll(c: Config, records: seq<Sample>)
    requires c.windowMs.Some? ==> 0.0 <= c.windowMs.value
    requires records != [] && forall r :: r in records ==> r.x == 0.0
    ensures Windowed(c, records) == records
  {
    if c.windowMs.Some? {
      assert records[|records| - 1] in records;
      FilterAll(records, AtLeast(0.0 - c.windowMs.value));
    }
  }

  lemma SmallLimitShowsAll(c: Config, records: seq<Sample>)
    requires c.maxPoints <= 2
    ensures Limit(c, records) == records
  {
  }

  /** Records of one moment are inside any window, and a limit of two or less lets them all through. */
  lemma OneMomentIsShown(c: Config, records: seq<Sample>)
    requires c.maxPoints <= 2 && (c.windowMs.Some? ==> 0.0 <= c.windowMs.value)
    requires records != [] && forall r :: r in records ==> r.x == 0.0
    ensures Unseen(Cleared(), records) == records && FirstFill(c, [], records) == records
  {
    FilterAll(records, Unbounded);
    WindowShowsAll(c, records);
    SmallLimitShowsAll(c, records);
    assert [] + records == records;
  }

  const THREE := [Sample(0.0, None, []), Sample(0.0, Some(1.0), []), Sample(0.0, Some(2.0), [])]

  lemma ThreeAreShown(c: Config)
    requires c.maxPoints <= 2 && (c.windowMs.Some? ==> 0.0 <= c.windowMs.value)
    ensures |Run(c, [FetchStep(THREE)]).now.visible| == 3
  {
    OneMomentIsShown(c, THREE);
    FetchShown(c, THREE);
    assert [FetchStep(THREE)][..0] == [];
  }

  lemma FetchShown(c: Config, records: seq<Sample>)
    requires records != [] && Unseen(Cleared(), records) == records && FirstFill(c, [], records) == records
    ensures Fetch(c, Cleared(), records).visible == records
  {
  }

  lemma {:induction false} FilterAll(records: seq<Sample>, b: Bound)
    requires forall r :: r in records ==> Meets(b, r.x)
    ensures Filter(records, b) == records
  {
    if records != [] {
      FilterAll(records[..|records| - 1], b);
    }
  }
}

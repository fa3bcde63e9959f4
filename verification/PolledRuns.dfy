/** Runs of the polled list: rows are added to the table, requests are sent, read the table at any time after,
    and are answered late, in another order or not at all. */
module PolledRuns {
  import opened Common
  import opened CursorCodec
  import opened CursorPaging
  import opened PolledList
  import opened TextOrder

  // ---- runs ----

  datatype Request = Request(mode: Mode, cursor: Option<Key>, since: string, answer: Option<Answer>)

  /** `since` is the lower bound on the creation time that the last request asked for; `pending` holds the
      requests not yet answered to the client. */
  datatype World = World(table: seq<Key>, since: string, client: Client, pending: map<nat, Request>)

  /** A row is added, a request is sent, it reads the table, its answer arrives, or it fails. */
  datatype Step =
    | AddRow(k: Key)
    | Send(mode: Mode, since: string)
    | Serve(n: nat, bodies: seq<string>)
    | Deliver(n: nat)
    | Fail(n: nat)

  /** Rows with the contents they have at the moment. */
  function Dressed(keys: seq<Key>, bodies: seq<string>): (rows: seq<Row>)
    ensures Keys(rows) == keys
  {
    if keys == [] then []
    else
      var n := |keys| - 1;
      var rows := Dressed(keys[..n], bodies) + [Row(keys[n], if n < |bodies| then bodies[n] else "")];
      assert rows[..n] == Dressed(keys[..n], bodies) && keys == keys[..n] + [keys[n]];
      rows
  }

  /** The database gives every row an id of its own; its creation time may be any. */
  predicate NewId(table: seq<Key>, k: Key) {
    forall o :: o in table ==> o.id != k.id
  }

  /** Only a reset may lower the bound; a page is appended only while the cursor names one. */
  predicate Enabled(w: World, step: Step) {
    match step
    case AddRow(k) => NewId(w.table, k)
    case Send(mode, since) =>
      && (mode == Append ==> w.client.cursor.Some?)
      && (mode != Reset ==> !TextLess(since, w.since))
    case Serve(n, _) => n in w.pending && w.pending[n].answer.None?
    case Deliver(n) => n in w.pending && w.pending[n].answer.Some?
    case Fail(n) => n in w.pending
  }

  function Since(since: string): Filter {
    Filter(since, "")
  }

  function Answered(limit: nat, table: seq<Key>, r: Request, bodies: seq<string>): Answer {
    var page := PageAfter(table, Since(r.since), r.cursor, limit);
    Answer(Dressed(page.items, bodies), page.next)
  }

  function Next(limit: nat, w: World, step: Step): World {
    if !Enabled(w, step) then w
    else
      match step
      case AddRow(k) => w.(table := w.table + [k])
      case Send(mode, since) =>
        var c := Sent(w.client, mode);
        var request := Request(mode, if mode == Append then w.client.cursor else None, since, None);
        w.(since := since, client := c, pending := w.pending[c.seqNo := request])
      case Serve(n, bodies) =>
        var r := w.pending[n];
        w.(pending := w.pending[n := r.(answer := Some(Answered(limit, w.table, r, bodies)))])
      case Deliver(n) =>
        var r := w.pending[n];
        w.(client := Received(w.client, n, r.mode, r.answer.value), pending := w.pending - {n})
      case Fail(n) => w.(pending := w.pending - {n})
  }

  function Run(limit: nat, steps: seq<Step>): World {
    if steps == [] then World([], "", Client([], None, 0), map[])
    else Next(limit, Run(limit, steps[..|steps| - 1]), steps[|steps| - 1])
  }

  // ---- the first page ----

  function Top(limit: nat, table: seq<Key>, since: string): seq<Key> {
    PageAfter(table, Since(since), None, limit).items
  }

  lemma {:induction false} ListingUpToAppend(table: seq<Key>, k: Key, f: Filter, n: nat)
    requires n <= |table|
    ensures ListingUpTo(table + [k], f, None, n) == ListingUpTo(table, f, None, n)
  {
    if n > 0 {
      ListingUpToAppend(table, k, f, n - 1);
    }
  }

  lemma ListingAfterAdd(table: seq<Key>, k: Key, f: Filter)
    ensures Listing(table + [k], f, None) ==
            if Selected(f, k) then Insert(k, Listing(table, f, None)) else Listing(table, f, None)
  {
    ListingUpToAppend(table, k, f, |table|);
  }

  /** An inserted row moves the rows below it down by one. */
  lemma {:induction false} InsertAt(k: Key, sorted: seq<Key>, i: nat)
    requires i < |Insert(k, sorted)|
    ensures var r := Insert(k, sorted)[i];
            || r == k
            || (i < |sorted| && r == sorted[i])
            || (0 < i <= |sorted| && r == sorted[i - 1])
  {
    if sorted != [] && !Below(sorted[0], k) && sorted[0] != k && 0 < i {
      InsertAt(k, sorted[1..], i - 1);
    }
  }

  /** A new row only pushes others off the first page. */
  lemma TopAfterAdd(limit: nat, table: seq<Key>, k: Key, since: string)
    ensures forall r :: r in Top(limit, table + [k], since) ==> r == k || r in Top(limit, table, since)
  {
    var f := Since(since);
    var before, after := Listing(table, f, None), Listing(table + [k], f, None);
    ListingAfterAdd(table, k, f);
    forall r | r in Top(limit, table + [k], since) && r != k ensures r in Top(limit, table, since) {
      var i :| 0 <= i < Min(limit, |after|) && after[i] == r;
      if Selected(f, k) {
        InsertAt(k, before, i);
        if i < |before| && before[i] == r {
          assert Top(limit, table, since)[i] == r;
        } else {
          assert Top(limit, table, since)[i - 1] == r;
        }
      } else {
        assert Top(limit, table, since)[i] == r;
      }
    }
  }

  lemma SelectedAbove(a: Key, b: Key, since: string)
    requires Below(a, b) && Selected(Since(since), a)
    ensures Selected(Since(since), b)
  {
    if TextLess(b.createdAt, since) && a.createdAt != b.createdAt {
      TextLessTransitive(a.createdAt, b.createdAt, since);
    }
  }

  lemma SelectedLater(k: Key, since: string, later: string)
    requires !TextLess(later, since) && Selected(Since(later), k)
    ensures Selected(Since(since), k)
  {
    TextLessTotal(since, later);
    if TextLess(k.createdAt, since) && since != later {
      TextLessTransitive(k.createdAt, since, later);
    }
  }

  /** Raising the bound cuts rows off the end of the list. */
  lemma {:induction false} LaterListingLength(full: seq<Key>, later: string, n: nat) returns (m: nat)
    requires Descending(full) && n <= |full|
    ensures m <= n && forall i :: 0 <= i < n ==> (Selected(Since(later), full[i]) <==> i < m)
  {
    if n == 0 {
      m := 0;
    } else {
      m := LaterListingLength(full, later, n - 1);
      if Selected(Since(later), full[n - 1]) {
        if m < n - 1 {
          SelectedAbove(full[n - 1], full[m], later);
        }
        m := n;
      }
    }
  }

  lemma LaterListing(table: seq<Key>, since: string, later: string) returns (m: nat)
    requires !TextLess(later, since)
    ensures m <= |Listing(table, Since(since), None)|
    ensures Listing(table, Since(later), None) == Listing(table, Since(since), None)[..m]
  {
    var full, part := Listing(table, Since(since), None), Listing(table, Since(later), None);
    ListingIs(table, Since(since), None);
    ListingIs(table, Since(later), None);
    m := LaterListingLength(full, later, |full|);
    forall k ensures k in part <==> k in full[..m] {
      if k in part {
        SelectedLater(k, since, later);
        assert k in full;
        var i :| 0 <= i < |full| && full[i] == k;
        assert full[..m][i] == k;
      }
    }
    ListingIsUnique(part, full[..m]);
  }

  lemma TopAfterLater(limit: nat, table: seq<Key>, since: string, later: string)
    requires !TextLess(later, since)
    ensures forall r :: r in Top(limit, table, later) ==> r in Top(limit, table, since)
  {
    var m := LaterListing(table, since, later);
    var full := Listing(table, Since(since), None);
    forall r | r in Top(limit, table, later) ensures r in Top(limit, table, since) {
      var i :| 0 <= i < Min(limit, m) && full[..m][i] == r;
      assert Top(limit, table, since)[i] == r;
    }
  }

  // ---- rows off the first page ----

  predicate AtOrAbove(a: Key, b: Key) {
    a == b || Below(b, a)
  }

  lemma AtOrAboveTransitive(a: Key, b: Key, c: Key)
    requires AtOrAbove(a, b) && AtOrAbove(b, c)
    ensures AtOrAbove(a, c)
  {
    if a != b && b != c {
      BelowTransitive(c, b, a);
    }
  }

  /** Unless the cursor's row fell out of the window, the rows at or above it fill the first page. */
  predicate PageFull(limit: nat, listing: seq<Key>, since: string, cursor: Option<Key>)
    requires 0 < limit
  {
    cursor.Some? && Selected(Since(since), cursor.value) ==>
      limit <= |listing| && AtOrAbove(listing[limit - 1], cursor.value)
  }

  lemma {:induction false} InsertBelow(k: Key, sorted: seq<Key>, i: nat)
    requires Descending(sorted) && i < |sorted| && Below(k, sorted[i])
    ensures i < |Insert(k, sorted)| && Insert(k, sorted)[i] == sorted[i]
  {
    BelowStrict(k, sorted[i]);
    if 0 < i {
      BelowTransitive(k, sorted[i], sorted[0]);
      BelowStrict(k, sorted[0]);
      InsertBelow(k, sorted[1..], i - 1);
    }
  }

  lemma {:induction false} InsertLonger(k: Key, sorted: seq<Key>)
    ensures |sorted| <= |Insert(k, sorted)|
  {
    if sorted != [] {
      InsertLonger(k, sorted[1..]);
    }
  }

  lemma PageFullAfterInsert(limit: nat, listing: seq<Key>, k: Key, since: string, cursor: Option<Key>)
    requires 0 < limit && Descending(listing) && PageFull(limit, listing, since, cursor)
    ensures PageFull(limit, Insert(k, listing), since, cursor)
  {
    InsertLonger(k, listing);
    if cursor.Some? && Selected(Since(since), cursor.value) {
      var last := listing[limit - 1];
      BelowTotal(k, last);
      if Below(k, last) {
        InsertBelow(k, listing, limit - 1);
      } else {
        InsertAt(k, listing, limit - 1);
        AtOrAboveTransitive(k, last, cursor.value);
        if 1 < limit {
          AtOrAboveTransitive(listing[limit - 2], last, cursor.value);
        }
      }
    }
  }

  lemma PageFullAfterAdd(limit: nat, table: seq<Key>, k: Key, since: string, cursor: Option<Key>)
    requires 0 < limit && PageFull(limit, Listing(table, Since(since), None), since, cursor)
    ensures PageFull(limit, Listing(table + [k], Since(since), None), since, cursor)
  {
    ListingIs(table, Since(since), None);
    ListingAfterAdd(table, k, Since(since));
    if Selected(Since(since), k) {
      PageFullAfterInsert(limit, Listing(table, Since(since), None), k, since, cursor);
    }
  }

  lemma PageFullAfterLater(limit: nat, table: seq<Key>, since: string, later: string, cursor: Option<Key>)
    requires 0 < limit && !TextLess(later, since)
    requires PageFull(limit, Listing(table, Since(since), None), since, cursor)
    ensures PageFull(limit, Listing(table, Since(later), None), later, cursor)
  {
    if cursor.Some? && Selected(Since(later), cursor.value) {
      var full := Listing(table, Since(since), None);
      SelectedLater(cursor.value, since, later);
      var m := LaterListing(table, since, later);
      var last := full[limit - 1];
      if last != cursor.value {
        SelectedAbove(cursor.value, last, later);
      }
      ListingIs(table, Since(since), None);
      ListingIs(table, Since(later), None);
      assert last in full && last in full[..m];
      var i :| 0 <= i < m && full[..m][i] == last;
      if i < limit - 1 {
        BelowStrict(last, full[i]);
      }
    }
  }

  lemma PageFullLower(limit: nat, listing: seq<Key>, since: string, cursor: Key, lower: Key)
    requires 0 < limit && PageFull(limit, listing, since, Some(cursor)) && Below(lower, cursor)
    ensures PageFull(limit, listing, since, Some(lower))
  {
    if Selected(Since(since), lower) {
      SelectedAbove(lower, cursor, since);
      AtOrAboveTransitive(listing[limit - 1], cursor, lower);
    }
  }

  /** So nothing on the first page is below the cursor. */
  lemma TopAboveCursor(limit: nat, table: seq<Key>, since: string, cursor: Key, r: Key)
    requires 0 < limit && PageFull(limit, Listing(table, Since(since), None), since, Some(cursor))
    requires r in Top(limit, table, since)
    ensures AtOrAbove(r, cursor)
  {
    var listing := Listing(table, Since(since), None);
    ListingIs(table, Since(since), None);
    var i :| 0 <= i < Min(limit, |listing|) && listing[i] == r;
    assert listing[i] in listing;
    BelowTotal(r, cursor);
    if Below(r, cursor) {
      SelectedAbove(r, cursor, since);
      AtOrAboveTransitive(r, listing[limit - 1], cursor);
      BelowStrict(r, cursor);
    }
  }

  // ---- what every run keeps ----

  predicate NextIsLast(keys: seq<Key>, next: Option<Key>) {
    next.Some? ==> Last(keys) == next
  }

  predicate NoneBelow(keys: seq<Key>, cursor: Option<Key>) {
    cursor.Some? ==> forall k :: k in keys ==> AtOrAbove(k, cursor.value)
  }

  function FirstListing(w: World): seq<Key> {
    Listing(w.table, Since(w.since), None)
  }

  ghost predicate ClientOk(limit: nat, w: World)
    requires 0 < limit
  {
    var keys := Keys(w.client.items);
    && AllIn(keys, w.table) && DistinctIds(w.client.items)
    && NextIsLast(keys, w.client.cursor) && NoneBelow(keys, w.client.cursor)
    && PageFull(limit, FirstListing(w), w.since, w.client.cursor)
  }

  ghost predicate AnswerOk(limit: nat, w: World, r: Request, a: Answer)
    requires 0 < limit
  {
    var keys := Keys(a.rows);
    && Descending(keys) && AllIn(keys, w.table) && NextIsLast(keys, a.next)
    && match r.mode
       case Append => forall k :: k in keys ==> Follows(r.cursor, k)
       case Reset => PageFull(limit, FirstListing(w), w.since, a.next)
       case Refresh => NoneBelow(keys, w.client.cursor)
  }

  ghost predicate RequestOk(limit: nat, w: World, r: Request)
    requires 0 < limit
  {
    && r.since == w.since
    && (if r.mode == Append then r.cursor.Some? && r.cursor == w.client.cursor else r.cursor.None?)
    && (r.mode == Reset ==> w.client.items == [])
    && (r.answer.Some? ==> AnswerOk(limit, w, r, r.answer.value))
  }

  ghost predicate Inv(limit: nat, w: World)
    requires 0 < limit
  {
    && TableOk(w.table)
    && ClientOk(limit, w)
    && (forall n :: n in w.pending ==> n <= w.client.seqNo)
    && (w.client.seqNo in w.pending ==> RequestOk(limit, w, w.pending[w.client.seqNo]))
  }

  lemma TableAfterAdd(table: seq<Key>, k: Key)
    requires TableOk(table) && NewId(table, k)
    ensures TableOk(table + [k])
  {
    assert forall i :: 0 <= i < |table| ==> table[i] in table;
  }

  lemma AddKeepsInv(limit: nat, w: World, k: Key)
    requires 0 < limit && Inv(limit, w) && NewId(w.table, k)
    ensures Inv(limit, Next(limit, w, AddRow(k)))
  {
    TableAfterAdd(w.table, k);
    PageFullAfterAdd(limit, w.table, k, w.since, w.client.cursor);
    var n := w.client.seqNo;
    if n in w.pending && w.pending[n].answer.Some? && w.pending[n].mode == Reset {
      PageFullAfterAdd(limit, w.table, k, w.since, w.pending[n].answer.value.next);
    }
  }

  lemma SendKeepsInv(limit: nat, w: World, mode: Mode, since: string)
    requires 0 < limit && Inv(limit, w) && Enabled(w, Send(mode, since))
    ensures Inv(limit, Next(limit, w, Send(mode, since)))
  {
    if mode != Reset {
      PageFullAfterLater(limit, w.table, w.since, since, w.client.cursor);
    }
  }

  lemma AnswerIsOk(limit: nat, w: World, r: Request, bodies: seq<string>)
    requires 0 < limit && Inv(limit, w) && RequestOk(limit, w, r)
    ensures AnswerOk(limit, w, r, Answered(limit, w.table, r, bodies))
  {
    PageIsTop(w.table, Since(r.since), r.cursor, limit);
    if r.mode == Refresh && w.client.cursor.Some? {
      forall k | k in Top(limit, w.table, w.since) ensures AtOrAbove(k, w.client.cursor.value) {
        TopAboveCursor(limit, w.table, w.since, w.client.cursor.value, k);
      }
    }
  }

  lemma ServeKeepsInv(limit: nat, w: World, n: nat, bodies: seq<string>)
    requires 0 < limit && Inv(limit, w) && Enabled(w, Serve(n, bodies))
    ensures Inv(limit, Next(limit, w, Serve(n, bodies)))
  {
    if n == w.client.seqNo {
      AnswerIsOk(limit, w, w.pending[n], bodies);
    }
  }

  lemma DifferentIds(table: seq<Key>, a: Key, b: Key)
    requires TableOk(table) && a in table && b in table && a != b
    ensures a.id != b.id
  {
  }

  lemma KeysDistinct(table: seq<Key>, rows: seq<Row>)
    requires TableOk(table) && AllIn(Keys(rows), table) && Descending(Keys(rows))
    ensures DistinctIds(rows)
  {
    var keys := Keys(rows);
    forall i, j | 0 <= i < j < |rows| ensures rows[i].key.id != rows[j].key.id {
      BelowStrict(keys[j], keys[i]);
      assert keys[i] in keys && keys[j] in keys;
      DifferentIds(table, keys[i], keys[j]);
    }
  }

  lemma DistinctConcat(table: seq<Key>, a: seq<Row>, b: seq<Row>)
    requires TableOk(table) && AllIn(Keys(a), table) && AllIn(Keys(b), table)
    requires DistinctIds(a) && DistinctIds(b) && forall k :: k in Keys(a) ==> k !in Keys(b)
    ensures DistinctIds(a + b)
  {
    forall i, j | 0 <= i < |a| && 0 <= j < |b| ensures a[i].key.id != b[j].key.id {
      assert Keys(a)[i] in Keys(a) && Keys(b)[j] in Keys(b);
      DifferentIds(table, a[i].key, b[j].key);
    }
  }

  lemma SameKeysDistinct(a: seq<Row>, b: seq<Row>)
    requires DistinctIds(a) && Keys(a) == Keys(b)
    ensures DistinctIds(b)
  {
    assert forall i :: 0 <= i < |a| ==> a[i].key == Keys(a)[i] == Keys(b)[i] == b[i].key;
  }

  lemma AboveLast(keys: seq<Key>, next: Option<Key>)
    requires Descending(keys) && NextIsLast(keys, next)
    ensures NoneBelow(keys, next)
  {
  }

  /** An appended page is older than everything shown, whatever the order of the list. */
  lemma PageIsOlder(keys: seq<Key>, cursor: Option<Key>, page: seq<Key>)
    requires cursor.Some? && NoneBelow(keys, cursor) && forall k :: k in page ==> Follows(cursor, k)
    ensures forall x, y :: x in keys && y in page ==> Below(y, x)
  {
    forall x, y | x in keys && y in page ensures Below(y, x) {
      if x != cursor.value {
        BelowTransitive(y, cursor.value, x);
      }
    }
  }

  lemma AppendKeepsClientOk(limit: nat, w: World, r: Request, a: Answer)
    requires 0 < limit && Inv(limit, w) && RequestOk(limit, w, r) && r.mode == Append && AnswerOk(limit, w, r, a)
    ensures ClientOk(limit, w.(client := w.client.(items := w.client.items + a.rows, cursor := a.next)))
  {
    var keys, page := Keys(w.client.items), Keys(a.rows);
    KeysConcat(w.client.items, a.rows);
    PageIsOlder(keys, r.cursor, page);
    KeysDistinct(w.table, a.rows);
    forall k | k in keys ensures k !in page {
      if k in page {
        BelowStrict(k, k);
      }
    }
    DistinctConcat(w.table, w.client.items, a.rows);
    AboveLast(page, a.next);
    if a.next.Some? {
      assert a.next.value in page;
      PageFullLower(limit, FirstListing(w), w.since, r.cursor.value, a.next.value);
    }
  }

  lemma RefreshKeepsClientOk(limit: nat, w: World, a: Answer)
    requires 0 < limit && TableOk(w.table) && ClientOk(limit, w)
    requires Descending(Keys(a.rows)) && AllIn(Keys(a.rows), w.table) && NoneBelow(Keys(a.rows), w.client.cursor)
    ensures ClientOk(limit, w.(client := w.client.(items := MergeFirstPage(w.client.items, a.rows))))
  {
    var prev, polled := w.client.items, a.rows;
    var newcomers := Newcomers(prev, polled);
    MergeKeys(w.table, prev, polled);
    RefreshedKeepsKeys(w.table, prev, polled);
    SameKeysDistinct(prev, Refreshed(prev, polled));
    KeysDistinct(w.table, newcomers);
    DistinctConcat(w.table, newcomers, Refreshed(prev, polled));
  }

  lemma DeliverKeepsInv(limit: nat, w: World, n: nat)
    requires 0 < limit && Inv(limit, w) && Enabled(w, Deliver(n))
    ensures Inv(limit, Next(limit, w, Deliver(n)))
  {
    if n == w.client.seqNo {
      var r := w.pending[n];
      var a := r.answer.value;
      match r.mode {
        case Reset =>
          KeysDistinct(w.table, a.rows);
          AboveLast(Keys(a.rows), a.next);
        case Append => AppendKeepsClientOk(limit, w, r, a);
        case Refresh => RefreshKeepsClientOk(limit, w, a);
      }
    }
  }

  lemma StepKeepsInv(limit: nat, w: World, step: Step)
    requires 0 < limit && Inv(limit, w)
    ensures Inv(limit, Next(limit, w, step))
  {
    if Enabled(w, step) {
      match step {
        case AddRow(k) => AddKeepsInv(limit, w, k);
        case Send(mode, since) => SendKeepsInv(limit, w, mode, since);
        case Serve(n, bodies) => ServeKeepsInv(limit, w, n, bodies);
        case Deliver(n) => DeliverKeepsInv(limit, w, n);
        case Fail(n) =>
      }
    }
  }

  lemma {:induction false} RunInv(limit: nat, steps: seq<Step>)
    requires 0 < limit
    ensures Inv(limit, Run(limit, steps))
  {
    if steps != [] {
      RunInv(limit, steps[..|steps| - 1]);
      StepKeepsInv(limit, Run(limit, steps[..|steps| - 1]), steps[|steps| - 1]);
    }
  }

  // ---- results for every run ----

  /** In every run the list shows rows of the table only, and none of them twice. */
  lemma EachRowIsShownOnce(limit: nat, steps: seq<Step>)
    requires 0 < limit
    ensures var w := Run(limit, steps);
            AllIn(Keys(w.client.items), w.table) && DistinctIds(w.client.items)
  {
    RunInv(limit, steps);
  }

  /** The answer to the request sent last is there and has the given mode. */
  predicate Arrives(w: World, mode: Mode) {
    Enabled(w, Deliver(w.client.seqNo)) && w.pending[w.client.seqNo].mode == mode
  }

  function Arriving(w: World): seq<Row>
    requires Enabled(w, Deliver(w.client.seqNo))
  {
    w.pending[w.client.seqNo].answer.value.rows
  }

  /** When an appended page arrives, all of it is older than everything shown: it never overlaps the list. */
  lemma AppendedPageIsOlder(limit: nat, steps: seq<Step>)
    requires 0 < limit && Arrives(Run(limit, steps), Append)
    ensures var w := Run(limit, steps);
            && Next(limit, w, Deliver(w.client.seqNo)).client.items == w.client.items + Arriving(w)
            && forall x, y :: x in Keys(w.client.items) && y in Keys(Arriving(w)) ==> Below(y, x)
  {
    RunInv(limit, steps);
    var w := Run(limit, steps);
    PageIsOlder(Keys(w.client.items), w.client.cursor, Keys(Arriving(w)));
  }

  /** When a refresh arrives, the rows shown keep their places, every polled row is shown as polled, and what is
      put before them is newer than all of them exactly when each polled row is shown or newer than the first
      row shown. */
  lemma NewcomersAreNewerIff(limit: nat, steps: seq<Step>)
    requires 0 < limit && Arrives(Run(limit, steps), Refresh) && Descending(Keys(Run(limit, steps).client.items))
    ensures var w := Run(limit, steps);
            var prev, polled := w.client.items, Arriving(w);
            var items := Next(limit, w, Deliver(w.client.seqNo)).client.items;
            && Keys(items) == Keys(Newcomers(prev, polled)) + Keys(prev)
            && (forall row :: row in polled ==> row in items)
            && ((forall x, y :: x in Keys(Newcomers(prev, polled)) && y in Keys(prev) ==> Below(y, x))
                <==> Covered(Keys(polled), Keys(prev)))
  {
    RunInv(limit, steps);
    var w := Run(limit, steps);
    var prev, polled := w.client.items, Arriving(w);
    MergeKeys(w.table, prev, polled);
    KeysDistinct(w.table, polled);
    MergeShowsLatest(prev, polled);
    NewerIffCovered(Keys(Newcomers(prev, polled)), Keys(polled), Keys(prev));
  }

  // ---- when the list is in order ----

  /** Since the list was last emptied, each refresh that was merged had only rows shown already or newer than
      the first row shown. */
  ghost predicate MergedInOrder(limit: nat, steps: seq<Step>) {
    steps == [] ||
    var front, step := steps[..|steps| - 1], steps[|steps| - 1];
    var w := Run(limit, front);
    if step.Send? && step.mode == Reset && Enabled(w, step) then true
    else if step.Deliver? && step.n == w.client.seqNo && Arrives(w, Refresh) then
      MergedInOrder(limit, front) && Covered(Keys(Arriving(w)), Keys(w.client.items))
    else MergedInOrder(limit, front)
  }

  lemma AppendOrderIff(limit: nat, w: World)
    requires 0 < limit && Inv(limit, w) && Arrives(w, Append)
    ensures Descending(Keys(w.client.items + Arriving(w))) <==> Descending(Keys(w.client.items))
  {
    var keys, page := Keys(w.client.items), Keys(Arriving(w));
    KeysConcat(w.client.items, Arriving(w));
    PageIsOlder(keys, w.client.cursor, page);
    if Descending(keys) {
      DescendingConcat(keys, page);
    }
    if Descending(keys + page) {
      DescendingParts(keys, page);
    }
  }

  lemma RefreshOrderIff(limit: nat, w: World)
    requires 0 < limit && Inv(limit, w) && Arrives(w, Refresh)
    ensures var prev, polled := w.client.items, Arriving(w);
            Descending(Keys(MergeFirstPage(prev, polled)))
            <==> Descending(Keys(prev)) && Covered(Keys(polled), Keys(prev))
  {
    var prev, polled := w.client.items, Arriving(w);
    MergeKeys(w.table, prev, polled);
    if Descending(Keys(Newcomers(prev, polled)) + Keys(prev)) {
      DescendingParts(Keys(Newcomers(prev, polled)), Keys(prev));
    }
    if Descending(Keys(prev)) {
      MergeOrderedIff(w.table, prev, polled);
    }
  }

  /** In every run, whatever is added when, the list is strictly descending exactly if the refreshes merged
      since it was last emptied were in order. */
  lemma {:induction false} ListOrderedIff(limit: nat, steps: seq<Step>)
    requires 0 < limit
    ensures Descending(Keys(Run(limit, steps).client.items)) <==> MergedInOrder(limit, steps)
  {
    if steps != [] {
      var front, step := steps[..|steps| - 1], steps[|steps| - 1];
      var w := Run(limit, front);
      ListOrderedIff(limit, front);
      RunInv(limit, front);
      if step.Deliver? && step.n == w.client.seqNo && Enabled(w, step) {
        match w.pending[step.n].mode {
          case Reset =>
          case Append => AppendOrderIff(limit, w);
          case Refresh => RefreshOrderIff(limit, w);
        }
      }
    }
  }

  // ---- which added rows disturb the order ----

  /** The list is in order, and stays so if it is refreshed now or when the answer under way arrives. */
  ghost predicate Safe(limit: nat, w: World) {
    var top, keys := Top(limit, w.table, w.since), Keys(w.client.items);
    && Descending(keys) && Covered(top, keys)
    && (Arrives(w, Reset) ==> Covered(top, Keys(Arriving(w))))
    && (Arrives(w, Refresh) ==> Covered(top, Keys(Arriving(w))) && Covered(Keys(Arriving(w)), keys))
  }

  predicate OnTop(k: Key, keys: seq<Key>) {
    keys == [] || Below(keys[0], k)
  }

  /** The added row is off the first page, or newer than the first row shown and than the first row of a
      first page under way. */
  predicate Settles(limit: nat, w: World, k: Key) {
    || k !in Top(limit, w.table + [k], w.since)
    || (OnTop(k, Keys(w.client.items)) && (Arrives(w, Reset) || Arrives(w, Refresh) ==> OnTop(k, Keys(Arriving(w)))))
  }

  ghost predicate Calm(limit: nat, steps: seq<Step>) {
    steps == [] ||
    var front, step := steps[..|steps| - 1], steps[|steps| - 1];
    Calm(limit, front)
    && (step.AddRow? && Enabled(Run(limit, front), step) ==> Settles(limit, Run(limit, front), step.k))
  }

  /** Adding a row leaves the first page covered exactly when the row is off it or newer than the first key. */
  lemma CoveredAfterAddIff(limit: nat, table: seq<Key>, k: Key, since: string, keys: seq<Key>)
    requires NewId(table, k) && AllIn(keys, table) && Covered(Top(limit, table, since), keys)
    ensures Covered(Top(limit, table + [k], since), keys) <==>
            k !in Top(limit, table + [k], since) || OnTop(k, keys)
  {
    TopAfterAdd(limit, table, k, since);
  }

  lemma AddSafeIff(limit: nat, w: World, k: Key)
    requires 0 < limit && Inv(limit, w) && Safe(limit, w) && NewId(w.table, k)
    ensures Safe(limit, Next(limit, w, AddRow(k))) <==> Settles(limit, w, k)
  {
    CoveredAfterAddIff(limit, w.table, k, w.since, Keys(w.client.items));
    if Arrives(w, Reset) || Arrives(w, Refresh) {
      CoveredAfterAddIff(limit, w.table, k, w.since, Keys(Arriving(w)));
    }
  }

  lemma FirstPageServed(limit: nat, w: World, r: Request, bodies: seq<string>)
    requires r.since == w.since && r.cursor.None?
    ensures Keys(Answered(limit, w.table, r, bodies).rows) == Top(limit, w.table, w.since)
  {
  }

  lemma ServeSafe(limit: nat, w: World, n: nat, bodies: seq<string>)
    requires 0 < limit && Inv(limit, w) && Safe(limit, w) && Enabled(w, Serve(n, bodies))
    ensures Safe(limit, Next(limit, w, Serve(n, bodies)))
  {
    var u := Next(limit, w, Serve(n, bodies));
    if n == w.client.seqNo && w.pending[n].mode != Append {
      FirstPageServed(limit, w, w.pending[n], bodies);
      assert Arriving(u) == Answered(limit, w.table, w.pending[n], bodies).rows;
    }
    assert u.table == w.table && u.client == w.client && u.since == w.since;
  }

  lemma SendSafe(limit: nat, w: World, mode: Mode, since: string)
    requires 0 < limit && Inv(limit, w) && Safe(limit, w) && Enabled(w, Send(mode, since))
    ensures Safe(limit, Next(limit, w, Send(mode, since)))
  {
    if mode != Reset {
      TopAfterLater(limit, w.table, w.since, since);
    }
  }

  lemma CoveredOnTop(top: seq<Key>, newcomers: seq<Key>, polled: seq<Key>, prev: seq<Key>)
    requires Covered(top, polled) && Covered(top, prev) && Descending(polled)
    requires forall k :: k in newcomers <==> k in polled && k !in prev
    ensures Covered(top, newcomers + prev)
  {
    var keys := newcomers + prev;
    if keys != [] {
      forall r | r in top ensures r in keys || Below(keys[0], r) {
        if r !in keys && newcomers != [] {
          assert newcomers[0] in polled && r !in polled;
          if newcomers[0] != polled[0] {
            BelowTransitive(newcomers[0], polled[0], r);
          }
        }
      }
    }
  }

  lemma CoveredByMore(top: seq<Key>, keys: seq<Key>, more: seq<Key>)
    requires Covered(top, keys) && (keys == [] ==> more == [])
    ensures Covered(top, keys + more)
  {
  }

  lemma DeliverSafe(limit: nat, w: World, n: nat)
    requires 0 < limit && Inv(limit, w) && Safe(limit, w) && Enabled(w, Deliver(n))
    ensures Safe(limit, Next(limit, w, Deliver(n)))
  {
    if n == w.client.seqNo {
      var prev, rows := w.client.items, Arriving(w);
      var top := Top(limit, w.table, w.since);
      match w.pending[n].mode {
        case Reset =>
        case Append =>
          AppendOrderIff(limit, w);
          KeysConcat(prev, rows);
          CoveredByMore(top, Keys(prev), Keys(rows));
        case Refresh =>
          RefreshOrderIff(limit, w);
          MergeKeys(w.table, prev, rows);
          CoveredOnTop(top, Keys(Newcomers(prev, rows)), Keys(rows), Keys(prev));
      }
    }
  }

  lemma StepSafe(limit: nat, w: World, step: Step)
    requires 0 < limit && Inv(limit, w) && Safe(limit, w)
    requires step.AddRow? && Enabled(w, step) ==> Settles(limit, w, step.k)
    ensures Safe(limit, Next(limit, w, step))
  {
    if Enabled(w, step) {
      match step {
        case AddRow(k) => AddSafeIff(limit, w, k);
        case Send(mode, since) => SendSafe(limit, w, mode, since);
        case Serve(n, bodies) => ServeSafe(limit, w, n, bodies);
        case Deliver(n) => DeliverSafe(limit, w, n);
        case Fail(n) =>
      }
    }
  }

  ghost predicate AlwaysSafe(limit: nat, steps: seq<Step>) {
    Safe(limit, Run(limit, steps)) && (steps == [] || AlwaysSafe(limit, steps[..|steps| - 1]))
  }

  /** Throughout a run the list is in order and would stay so on a refresh exactly if each row added was off the
      first page, or newer than the first row shown and than the first row under way. */
  lemma {:induction false} SafeIffCalm(limit: nat, steps: seq<Step>)
    requires 0 < limit
    ensures AlwaysSafe(limit, steps) <==> Calm(limit, steps)
  {
    if steps != [] {
      var front, step := steps[..|steps| - 1], steps[|steps| - 1];
      var w := Run(limit, front);
      SafeIffCalm(limit, front);
      RunInv(limit, front);
      if AlwaysSafe(limit, front) {
        if step.AddRow? && Enabled(w, step) {
          AddSafeIff(limit, w, step.k);
        } else {
          StepSafe(limit, w, step);
        }
      }
    }
  }

  // ---- growing tables, and one that grows otherwise ----

  /** Every added row is newer than all rows there. */
  ghost predicate AddsOnTop(limit: nat, steps: seq<Step>) {
    steps == [] ||
    var front, step := steps[..|steps| - 1], steps[|steps| - 1];
    AddsOnTop(limit, front)
    && (step.AddRow? ==> forall o :: o in Run(limit, front).table ==> Below(o, step.k))
  }

  lemma {:induction false} GrowingIsCalm(limit: nat, steps: seq<Step>)
    requires 0 < limit && AddsOnTop(limit, steps)
    ensures Calm(limit, steps)
  {
    if steps != [] {
      var front, step := steps[..|steps| - 1], steps[|steps| - 1];
      var w := Run(limit, front);
      GrowingIsCalm(limit, front);
      RunInv(limit, front);
      if step.AddRow? && Enabled(w, step) {
        assert w.client.items != [] ==> Keys(w.client.items)[0] in w.table;
        if Enabled(w, Deliver(w.client.seqNo)) {
          assert Arriving(w) != [] ==> Keys(Arriving(w))[0] in w.table;
        }
      }
    }
  }

  /** Over a table that grows at its top only, any interleaving of resets, appended pages, refreshes and late or
      reordered answers keeps the list strictly descending, and newcomers newer than everything shown. */
  lemma GrowingListIsOrdered(limit: nat, steps: seq<Step>)
    requires 0 < limit && AddsOnTop(limit, steps)
    ensures var w := Run(limit, steps);
            && Descending(Keys(w.client.items))
            && (Arrives(w, Refresh) ==>
                  forall x, y | x in Keys(Newcomers(w.client.items, Arriving(w))) && y in Keys(w.client.items) ::
                    Below(y, x))
  {
    GrowingIsCalm(limit, steps);
    SafeIffCalm(limit, steps);
    if Arrives(Run(limit, steps), Refresh) {
      NewcomersAreNewerIff(limit, steps);
    }
  }

  // ---- a row stamped before it was added ----

  lemma RunStep(limit: nat, steps: seq<Step>, step: Step)
    ensures Run(limit, steps + [step]) == Next(limit, Run(limit, steps), step)
  {
    assert (steps + [step])[..|steps|] == steps;
  }

  /** A request is sent and served with nothing in between. */
  function Polled(limit: nat, w: World, mode: Mode): World {
    Next(limit, Next(limit, w, Send(mode, w.since)), Serve(w.client.seqNo + 1, []))
  }

  /** And delivered. */
  function Fetched(limit: nat, w: World, mode: Mode): World {
    Next(limit, Polled(limit, w, mode), Deliver(w.client.seqNo + 1))
  }

  lemma RunOneMore(limit: nat, steps: seq<Step>, w: World, step: Step)
    requires Run(limit, steps) == w
    ensures Run(limit, steps + [step]) == Next(limit, w, step)
  {
    RunStep(limit, steps, step);
  }

  lemma RunPolled(limit: nat, steps: seq<Step>, w: World, mode: Mode)
    requires Run(limit, steps) == w
    ensures Run(limit, steps + [Send(mode, w.since)] + [Serve(w.client.seqNo + 1, [])]) == Polled(limit, w, mode)
  {
    var sent := Next(limit, w, Send(mode, w.since));
    RunOneMore(limit, steps, w, Send(mode, w.since));
    RunOneMore(limit, steps + [Send(mode, w.since)], sent, Serve(w.client.seqNo + 1, []));
  }

  lemma RunRefreshOrderIff(limit: nat, steps: seq<Step>, u: World)
    requires 0 < limit && Run(limit, steps) == u && Arrives(u, Refresh)
    ensures var prev, polled := u.client.items, Arriving(u);
            Descending(Keys(MergeFirstPage(prev, polled)))
            <==> Descending(Keys(prev)) && Covered(Keys(polled), Keys(prev))
  {
    RunInv(limit, steps);
    RefreshOrderIff(limit, u);
  }

  lemma RefreshSent(limit: nat, w: World)
    ensures var n := w.client.seqNo + 1;
            Next(limit, w, Send(Refresh, w.since))
            == w.(client := w.client.(seqNo := n), pending := w.pending[n := Request(Refresh, None, w.since, None)])
  {
    TextLessIrreflexive(w.since);
  }

  lemma RefreshPolled(limit: nat, w: World)
    ensures var u := Polled(limit, w, Refresh);
            && Arrives(u, Refresh)
            && u.client == w.client.(seqNo := w.client.seqNo + 1)
            && Keys(Arriving(u)) == Top(limit, w.table, w.since)
  {
    RefreshSent(limit, w);
    FirstPageServed(limit, w, Request(Refresh, None, w.since, None), []);
  }

  lemma MergedOnArrival(limit: nat, u: World)
    requires Arrives(u, Refresh)
    ensures Next(limit, u, Deliver(u.client.seqNo)).client.items == MergeFirstPage(u.client.items, Arriving(u))
  {
  }

  lemma RefreshFetched(limit: nat, w: World)
    ensures var u := Polled(limit, w, Refresh);
            && Arrives(u, Refresh)
            && Fetched(limit, w, Refresh).client.items == MergeFirstPage(w.client.items, Arriving(u))
  {
    RefreshPolled(limit, w);
    MergedOnArrival(limit, Polled(limit, w, Refresh));
  }

  lemma PolledOrderIff(limit: nat, steps: seq<Step>, w: World)
    requires 0 < limit && Run(limit, steps) == w
    ensures var u := Polled(limit, w, Refresh);
            && Arrives(u, Refresh)
            && (Descending(Keys(MergeFirstPage(w.client.items, Arriving(u))))
                <==> Descending(Keys(w.client.items)) && Covered(Top(limit, w.table, w.since), Keys(w.client.items)))
  {
    RefreshPolled(limit, w);
    RunPolled(limit, steps, w, Refresh);
    RunRefreshOrderIff(limit, steps + [Send(Refresh, w.since)] + [Serve(w.client.seqNo + 1, [])],
                       Polled(limit, w, Refresh));
  }

  /** In any reachable state with an ordered list, an immediate refresh keeps it ordered exactly when each row of
      the first page is shown or newer than the first row shown. */
  lemma RefreshNowIff(limit: nat, steps: seq<Step>)
    requires 0 < limit && Descending(Keys(Run(limit, steps).client.items))
    ensures var w := Run(limit, steps);
            Descending(Keys(Fetched(limit, w, Refresh).client.items))
            <==> Covered(Top(limit, w.table, w.since), Keys(w.client.items))
  {
    RefreshFetched(limit, Run(limit, steps));
    PolledOrderIff(limit, steps, Run(limit, steps));
  }

  const A := Key("10", 1)
  const B := Key("05", 2)

  const ADD_LATE := [AddRow(A), Send(Reset, ""), Serve(1, []), Deliver(1), AddRow(B)]

  const W_ONE := World([A], "", Client([], None, 0), map[])
  const W_SENT := World([A], "", Client([], None, 1), map[1 := Request(Reset, None, "", None)])
  const W_SERVED :=
    World([A], "", Client([], None, 1), map[1 := Request(Reset, None, "", Some(Answer([Row(A, "")], None)))])
  const W_SHOWN := World([A], "", Client([Row(A, "")], None, 1), map[])
  const W_LATE := World([A, B], "", Client([Row(A, "")], None, 1), map[])

  lemma FirstRowAdded(limit: nat)
    ensures Run(limit, [AddRow(A)]) == W_ONE
  {
    assert [AddRow(A)][..0] == [];
    assert [] + [A] == [A];
  }

  lemma ResetSent(limit: nat)
    ensures Run(limit, [AddRow(A), Send(Reset, "")]) == W_SENT
  {
    FirstRowAdded(limit);
    RunOneMore(limit, [AddRow(A)], W_ONE, Send(Reset, ""));
    assert [AddRow(A)] + [Send(Reset, "")] == [AddRow(A), Send(Reset, "")];
  }

  lemma ServedOne(limit: nat)
    requires 2 <= limit
    ensures Next(limit, W_SENT, Serve(1, [])) == W_SERVED
  {
    OneRowPage(limit);
    assert Answered(limit, [A], W_SENT.pending[1], []) == Answer([Row(A, "")], None);
  }

  lemma ResetServed(limit: nat)
    requires 2 <= limit
    ensures Run(limit, [AddRow(A), Send(Reset, ""), Serve(1, [])]) == W_SERVED
  {
    ResetSent(limit);
    ServedOne(limit);
    RunOneMore(limit, [AddRow(A), Send(Reset, "")], W_SENT, Serve(1, []));
    assert [AddRow(A), Send(Reset, "")] + [Serve(1, [])] == [AddRow(A), Send(Reset, ""), Serve(1, [])];
  }

  lemma DeliveredOne(limit: nat)
    ensures Next(limit, W_SERVED, Deliver(1)) == W_SHOWN
  {
    assert W_SERVED.pending - {1} == map[];
  }

  lemma ResetDelivered(limit: nat)
    requires 2 <= limit
    ensures Run(limit, [AddRow(A), Send(Reset, ""), Serve(1, []), Deliver(1)]) == W_SHOWN
  {
    var served := [AddRow(A), Send(Reset, ""), Serve(1, [])];
    ResetServed(limit);
    DeliveredOne(limit);
    RunOneMore(limit, served, W_SERVED, Deliver(1));
    assert served + [Deliver(1)] == [AddRow(A), Send(Reset, ""), Serve(1, []), Deliver(1)];
  }

  lemma LateRowAdded(limit: nat)
    requires 2 <= limit
    ensures Run(limit, ADD_LATE) == W_LATE
  {
    var shown := [AddRow(A), Send(Reset, ""), Serve(1, []), Deliver(1)];
    ResetDelivered(limit);
    RunOneMore(limit, shown, W_SHOWN, AddRow(B));
    assert [A] + [B] == [A, B];
    assert ADD_LATE == shown + [AddRow(B)];
  }

  lemma OneRowPage(limit: nat)
    requires 2 <= limit
    ensures PageAfter([A], Since(""), None, limit) == Page([A], None)
    ensures Dressed([A], []) == [Row(A, "")]
  {
    assert ListingUpTo([A], Since(""), None, 1) == Insert(A, ListingUpTo([A], Since(""), None, 0));
    assert Insert(A, []) == [A];
    assert Dressed([A], []) == Dressed([], []) + [Row(A, "")];
  }

  lemma TwoRowPage(limit: nat)
    requires 2 <= limit
    ensures Top(limit, [A, B], "") == [A, B]
  {
    assert TextLess("05", "10") && !TextLess("10", "05");
    assert ListingUpTo([A, B], Since(""), None, 1) == Insert(A, ListingUpTo([A, B], Since(""), None, 0));
    assert Insert(A, []) == [A];
    assert Insert(B, [A]) == [A] + Insert(B, []);
    assert Listing([A, B], Since(""), None) == [A, B];
  }

  lemma MergedLate(prev: seq<Row>, polled: seq<Row>)
    requires Keys(prev) == [A] && Keys(polled) == [A, B]
    ensures Keys(MergeFirstPage(prev, polled)) == [B, A]
  {
    assert TextLess("05", "10");
    MergeKeys([A, B], prev, polled);
    ListingIsUnique(Keys(Newcomers(prev, polled)), [B]);
  }

  lemma RefreshedLate(limit: nat, w: World)
    requires 2 <= limit && w.table == [A, B] && w.since == "" && Keys(w.client.items) == [A]
    ensures Keys(Fetched(limit, w, Refresh).client.items) == [B, A]
  {
    TwoRowPage(limit);
    RefreshPolled(limit, w);
    RefreshFetched(limit, w);
    MergedLate(w.client.items, Arriving(Polled(limit, w, Refresh)));
  }

  lemma LateRowNotCovered(limit: nat)
    requires 2 <= limit
    ensures !Covered(Top(limit, [A, B], ""), [A]) && !Descending([B, A])
  {
    TwoRowPage(limit);
    assert TextLess("05", "10");
    BelowStrict(B, A);
    assert B in [A, B];
    assert [B, A][0] == B && [B, A][1] == A;
  }

  lemma LateRowNotCalm(limit: nat)
    requires 2 <= limit
    ensures !Calm(limit, ADD_LATE)
  {
    LateRowAdded(limit);
    LateRowNotCovered(limit);
    SafeIffCalm(limit, ADD_LATE);
    assert Keys(W_LATE.client.items) == [A];
    assert !Safe(limit, W_LATE);
  }

  /** Creating a task stamps its audit row, waits for the reviewer and adds the row only then. A row B stamped
      before a row A that is shown already is polled below A but merged above it: after the refresh the list is
      not descending and the newcomer is older than what was shown. */
  lemma LateRowBreaksOrder(limit: nat)
    requires 2 <= limit
    ensures Keys(Run(limit, ADD_LATE).client.items) == [A]
    ensures Keys(Fetched(limit, Run(limit, ADD_LATE), Refresh).client.items) == [B, A] && Below(B, A)
    ensures !Descending([B, A]) && !Calm(limit, ADD_LATE)
  {
    LateRowAdded(limit);
    assert Keys(W_LATE.client.items) == [A];
    RefreshedLate(limit, W_LATE);
    LateRowNotCovered(limit);
    LateRowNotCalm(limit);
    assert TextLess("05", "10");
  }
}

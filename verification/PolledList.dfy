/** The list of audit events in the console, scrolled page by page while its first page is polled: how a
    polled page is merged, and what the view does when it sends a request and when an answer comes. A cursor
    is told by the row it stands for. */
module PolledList {
  import opened Common
  import opened CursorCodec
  import opened CursorPaging
  import opened TextOrder

  /** What is shown of a row can change; its key does not. */
  datatype Row = Row(key: Key, body: string)

  function Keys(rows: seq<Row>): (keys: seq<Key>)
    ensures |keys| == |rows| && forall i :: 0 <= i < |rows| ==> keys[i] == rows[i].key
  {
    if rows == [] then [] else Keys(rows[..|rows| - 1]) + [rows[|rows| - 1].key]
  }

  // ---- merging a refreshed first page ----

  predicate HasId(rows: seq<Row>, id: int) {
    exists i :: 0 <= i < |rows| && rows[i].key.id == id
  }

  /** The rows of `polled` that are not shown yet. */
  function Newcomers(prev: seq<Row>, polled: seq<Row>): seq<Row> {
    if polled == [] then []
    else
      var last := polled[|polled| - 1];
      Newcomers(prev, polled[..|polled| - 1]) + if HasId(prev, last.key.id) then [] else [last]
  }

  /** The version of a row in `polled`, if it is there: the last one. */
  function Version(polled: seq<Row>, row: Row): Row {
    if polled == [] then row
    else if polled[|polled| - 1].key.id == row.key.id then polled[|polled| - 1]
    else Version(polled[..|polled| - 1], row)
  }

  function Refreshed(prev: seq<Row>, polled: seq<Row>): (rows: seq<Row>)
    ensures |rows| == |prev| && forall i :: 0 <= i < |prev| ==> rows[i] == Version(polled, prev[i])
  {
    if prev == [] then []
    else Refreshed(prev[..|prev| - 1], polled) + [Version(polled, prev[|prev| - 1])]
  }

  function MergeFirstPage(prev: seq<Row>, polled: seq<Row>): seq<Row> {
    Newcomers(prev, polled) + Refreshed(prev, polled)
  }

  predicate DistinctIds(rows: seq<Row>) {
    forall i, j :: 0 <= i < j < |rows| ==> rows[i].key.id != rows[j].key.id
  }

  lemma {:induction false} VersionIsPolled(polled: seq<Row>, row: Row, j: nat)
    requires DistinctIds(polled) && j < |polled| && polled[j].key.id == row.key.id
    ensures Version(polled, row) == polled[j]
  {
    if j < |polled| - 1 {
      VersionIsPolled(polled[..|polled| - 1], row, j);
    }
  }

  lemma {:induction false} VersionIsKept(polled: seq<Row>, row: Row)
    requires !HasId(polled, row.key.id)
    ensures Version(polled, row) == row
  {
    if polled != [] {
      VersionIsKept(polled[..|polled| - 1], row);
    }
  }

  lemma {:induction false} NewcomersHave(prev: seq<Row>, polled: seq<Row>, j: nat)
    requires j < |polled| && !HasId(prev, polled[j].key.id)
    ensures polled[j] in Newcomers(prev, polled)
  {
    if j < |polled| - 1 {
      NewcomersHave(prev, polled[..|polled| - 1], j);
    }
  }

  /** Every polled row is shown as polled, and a row that was not polled is shown as before. */
  lemma MergeShowsLatest(prev: seq<Row>, polled: seq<Row>)
    requires DistinctIds(polled)
    ensures forall row :: row in polled ==> row in MergeFirstPage(prev, polled)
    ensures forall row :: row in prev && !HasId(polled, row.key.id) ==> row in MergeFirstPage(prev, polled)
  {
    forall row | row in polled ensures row in MergeFirstPage(prev, polled) {
      var j :| 0 <= j < |polled| && polled[j] == row;
      if HasId(prev, row.key.id) {
        var i :| 0 <= i < |prev| && prev[i].key.id == row.key.id;
        VersionIsPolled(polled, prev[i], j);
        assert Refreshed(prev, polled)[i] == row;
      } else {
        NewcomersHave(prev, polled, j);
      }
    }
    forall row | row in prev && !HasId(polled, row.key.id) ensures row in MergeFirstPage(prev, polled) {
      var i :| 0 <= i < |prev| && prev[i] == row;
      VersionIsKept(polled, row);
      assert Refreshed(prev, polled)[i] == row;
    }
  }

  // ---- the order of a merged list ----

  /** Ids are unique. */
  predicate TableOk(table: seq<Key>) {
    forall i, j :: 0 <= i < j < |table| ==> table[i].id != table[j].id
  }

  predicate AllIn(keys: seq<Key>, table: seq<Key>) {
    forall k :: k in keys ==> k in table
  }

  /** A row of the page is among `keys` or newer than the first of them, unless there are none. */
  predicate Covered(page: seq<Key>, keys: seq<Key>) {
    keys == [] || forall r :: r in page ==> r in keys || Below(keys[0], r)
  }

  lemma SameId(table: seq<Key>, a: Key, b: Key)
    requires TableOk(table) && a in table && b in table && a.id == b.id
    ensures a == b
  {
  }

  lemma {:induction false} VersionKeepsKey(table: seq<Key>, polled: seq<Row>, row: Row)
    requires TableOk(table) && AllIn(Keys(polled), table) && row.key in table
    ensures Version(polled, row).key == row.key
  {
    if polled != [] {
      var front, last := polled[..|polled| - 1], polled[|polled| - 1];
      assert last.key == Keys(polled)[|polled| - 1];
      if last.key.id == row.key.id {
        SameId(table, last.key, row.key);
      } else {
        assert forall k :: k in Keys(front) ==> k in Keys(polled);
        VersionKeepsKey(table, front, row);
      }
    }
  }

  /** Rows already shown stay where they are. */
  lemma RefreshedKeepsKeys(table: seq<Key>, prev: seq<Row>, polled: seq<Row>)
    requires TableOk(table) && AllIn(Keys(polled), table) && AllIn(Keys(prev), table)
    ensures Keys(Refreshed(prev, polled)) == Keys(prev)
  {
    forall i | 0 <= i < |prev| ensures Refreshed(prev, polled)[i].key == prev[i].key {
      assert prev[i].key == Keys(prev)[i];
      VersionKeepsKey(table, polled, prev[i]);
    }
  }

  lemma HasIdIsShown(table: seq<Key>, prev: seq<Row>, k: Key)
    requires TableOk(table) && AllIn(Keys(prev), table) && k in table
    ensures HasId(prev, k.id) <==> k in Keys(prev)
  {
    if HasId(prev, k.id) {
      var i :| 0 <= i < |prev| && prev[i].key.id == k.id;
      assert Keys(prev)[i] == prev[i].key;
      SameId(table, prev[i].key, k);
    }
    if k in Keys(prev) {
      var i :| 0 <= i < |prev| && Keys(prev)[i] == k;
      assert prev[i].key.id == k.id;
    }
  }

  lemma KeysConcat(a: seq<Row>, b: seq<Row>)
    ensures Keys(a + b) == Keys(a) + Keys(b)
  {
  }

  lemma NewcomerStep(front: seq<Key>, last: Key, prev: seq<Key>, found: seq<Key>)
    requires Descending(front + [last]) && Descending(found)
    requires forall k :: k in found <==> k in front && k !in prev
    ensures var keys := found + if last in prev then [] else [last];
            Descending(keys) && forall k :: k in keys <==> k in front + [last] && k !in prev
  {
    assert (front + [last])[|front|] == last;
    forall k | k in front ensures Below(last, k) {
      var i :| 0 <= i < |front| && front[i] == k;
      assert (front + [last])[i] == k;
    }
    DescendingConcat(found, if last in prev then [] else [last]);
  }

  /** The newcomers are the polled rows not shown yet, in their order. */
  lemma {:induction false} NewcomersAre(table: seq<Key>, prev: seq<Row>, polled: seq<Row>)
    requires TableOk(table) && AllIn(Keys(polled), table) && AllIn(Keys(prev), table)
    requires Descending(Keys(polled))
    ensures var keys := Keys(Newcomers(prev, polled));
            Descending(keys) && forall k :: k in keys <==> k in Keys(polled) && k !in Keys(prev)
  {
    if polled != [] {
      var front, last := polled[..|polled| - 1], polled[|polled| - 1];
      var keys := Keys(front);
      assert Keys(polled) == keys + [last.key];
      assert last.key in Keys(polled) && forall k :: k in keys ==> k in Keys(polled);
      DescendingParts(keys, [last.key]);
      NewcomersAre(table, prev, front);
      HasIdIsShown(table, prev, last.key);
      NewcomerStep(keys, last.key, Keys(prev), Keys(Newcomers(prev, front)));
      KeysConcat(Newcomers(prev, front), if HasId(prev, last.key.id) then [] else [last]);
    }
  }

  /** A merge puts the polled rows that are not shown yet before the rows shown, which keep their places. */
  lemma MergeKeys(table: seq<Key>, prev: seq<Row>, polled: seq<Row>)
    requires TableOk(table) && AllIn(Keys(polled), table) && AllIn(Keys(prev), table)
    requires Descending(Keys(polled))
    ensures Keys(MergeFirstPage(prev, polled)) == Keys(Newcomers(prev, polled)) + Keys(prev)
    ensures Descending(Keys(Newcomers(prev, polled)))
    ensures forall k :: k in Keys(Newcomers(prev, polled)) <==> k in Keys(polled) && k !in Keys(prev)
  {
    NewcomersAre(table, prev, polled);
    RefreshedKeepsKeys(table, prev, polled);
    KeysConcat(Newcomers(prev, polled), Refreshed(prev, polled));
  }

  lemma DescendingParts(a: seq<Key>, b: seq<Key>)
    requires Descending(a + b)
    ensures Descending(a) && Descending(b)
    ensures forall x, y :: x in a && y in b ==> Below(y, x)
  {
    assert forall i :: 0 <= i < |a| ==> (a + b)[i] == a[i];
    assert forall i :: 0 <= i < |b| ==> (a + b)[|a| + i] == b[i];
  }

  /** The newcomers are newer than everything shown exactly when each polled row is shown or newer than the
      first row shown. */
  lemma NewerIffCovered(newcomers: seq<Key>, polled: seq<Key>, prev: seq<Key>)
    requires Descending(prev)
    requires forall k :: k in newcomers <==> k in polled && k !in prev
    ensures (forall x, y :: x in newcomers && y in prev ==> Below(y, x)) <==> Covered(polled, prev)
  {
    if Covered(polled, prev) {
      forall x, y | x in newcomers && y in prev ensures Below(y, x) {
        assert Below(prev[0], x);
        if y != prev[0] {
          BelowTransitive(y, prev[0], x);
        }
      }
    }
    if prev != [] {
      assert prev[0] in prev;
    }
  }

  /** A merge keeps the order of an ordered list exactly when each polled row is shown already or newer than
      the first row shown. */
  lemma MergeOrderedIff(table: seq<Key>, prev: seq<Row>, polled: seq<Row>)
    requires TableOk(table) && AllIn(Keys(polled), table) && AllIn(Keys(prev), table)
    requires Descending(Keys(polled)) && Descending(Keys(prev))
    ensures Descending(Keys(MergeFirstPage(prev, polled))) <==> Covered(Keys(polled), Keys(prev))
  {
    var newcomers := Keys(Newcomers(prev, polled));
    MergeKeys(table, prev, polled);
    NewerIffCovered(newcomers, Keys(polled), Keys(prev));
    if Covered(Keys(polled), Keys(prev)) {
      DescendingConcat(newcomers, Keys(prev));
    }
    if Descending(newcomers + Keys(prev)) {
      DescendingParts(newcomers, Keys(prev));
    }
  }

  // ---- the client ----

  datatype Mode = Reset | Append | Refresh

  datatype Answer = Answer(rows: seq<Row>, next: Option<Key>)

  /** `seqNo` is the number of the request sent last. */
  datatype Client = Client(items: seq<Row>, cursor: Option<Key>, seqNo: nat)

  /** A reset empties the list at once. */
  function Sent(c: Client, mode: Mode): Client {
    if mode == Reset then Client([], None, c.seqNo + 1) else c.(seqNo := c.seqNo + 1)
  }

  /** Only the answer to the request sent last is used. */
  function Received(c: Client, n: nat, mode: Mode, a: Answer): Client {
    if n != c.seqNo then c
    else
      match mode
      case Reset => c.(items := a.rows, cursor := a.next)
      case Append => c.(items := c.items + a.rows, cursor := a.next)
      case Refresh => c.(items := MergeFirstPage(c.items, a.rows))
  }

  class AuditsList {
    var items: seq<Row>
    var cursor: Option<Key>
    var seqRef: nat

    function Now(): Client
      reads this
    {
      Client(items, cursor, seqRef)
    }

    constructor ()
      ensures Now() == Client([], None, 0)
    {
      items, cursor, seqRef := [], None, 0;
    }

    /** The part of fetching a page before the answer is awaited: from now on no answer to an earlier request
        has any effect, and the list stays as it is except that a reset empties it. */
    method Send(mode: Mode) returns (n: nat)
      modifies this
      ensures Now() == Sent(old(Now()), mode) && n == seqRef
      ensures forall k: nat, m, a :: k <= old(seqRef) ==> Received(Now(), k, m, a) == Now()
      ensures if mode == Reset then items == [] && cursor.None? else items == old(items) && cursor == old(cursor)
    {
      if mode == Reset {
        items := [];
        cursor := None;
      }
      seqRef := seqRef + 1;
      n := seqRef;
    }

    /** The part after it, with the number the request was sent under. */
    method Receive(n: nat, mode: Mode, page: Answer)
      modifies this
      ensures Now() == Received(old(Now()), n, mode, page)
      ensures n != old(seqRef) ==> Now() == old(Now())
      ensures n == old(seqRef) ==>
                && seqRef == n
                && (mode == Reset ==> items == page.rows && cursor == page.next)
                && (mode == Append ==> items == old(items) + page.rows && cursor == page.next)
                && (mode == Refresh ==> items == MergeFirstPage(old(items), page.rows) && cursor == old(cursor))
    {
      if n != seqRef {
        return;
      }
      match mode {
        case Reset => items := page.rows;
        case Append => items := items + page.rows;
        case Refresh => items := MergeFirstPage(items, page.rows);
      }
      if mode != Refresh {
        cursor := page.next;
      }
    }
  }
}

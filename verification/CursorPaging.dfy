/** Keyset paging of a list ordered by creation time and id, newest first, and the traversal that follows
    the cursors to the end while the table may change between requests. */
module CursorPaging {
  import opened Common
  import opened CursorCodec
  import opened TextOrder

  // ---- the order of rows ----

  /** The condition a cursor adds to the query: `a` comes after `b` in the list. */
  predicate Below(a: Key, b: Key) {
    TextLess(a.createdAt, b.createdAt) || (a.createdAt == b.createdAt && a.id < b.id)
  }

  lemma BelowStrict(a: Key, b: Key)
    requires Below(a, b)
    ensures a != b && !Below(b, a)
  {
    if Below(b, a) {
      BelowTransitive(a, b, a);
    }
    TextLessIrreflexive(a.createdAt);
  }

  lemma BelowTransitive(a: Key, b: Key, c: Key)
    requires Below(a, b) && Below(b, c)
    ensures Below(a, c)
  {
    if TextLess(a.createdAt, b.createdAt) && TextLess(b.createdAt, c.createdAt) {
      TextLessTransitive(a.createdAt, b.createdAt, c.createdAt);
    }
  }

  lemma BelowTotal(a: Key, b: Key)
    ensures Below(a, b) || a == b || Below(b, a)
  {
    TextLessTotal(a.createdAt, b.createdAt);
  }

  predicate Descending(keys: seq<Key>) {
    forall i, j :: 0 <= i < j < |keys| ==> Below(keys[j], keys[i])
  }

  /** Puts a row where it belongs. Ids are unique, so no row is there twice. */
  function Insert(k: Key, sorted: seq<Key>): seq<Key> {
    if sorted == [] || Below(sorted[0], k) then [k] + sorted
    else if sorted[0] == k then sorted
    else [sorted[0]] + Insert(k, sorted[1..])
  }

  lemma {:induction false} InsertMembers(k: Key, sorted: seq<Key>)
    ensures forall x :: x in Insert(k, sorted) <==> x == k || x in sorted
    ensures |Insert(k, sorted)| <= |sorted| + 1
  {
    if sorted != [] && !Below(sorted[0], k) && sorted[0] != k {
      InsertMembers(k, sorted[1..]);
      assert sorted == [sorted[0]] + sorted[1..];
    }
  }

  lemma {:induction false} InsertDescending(k: Key, sorted: seq<Key>)
    requires Descending(sorted)
    ensures Descending(Insert(k, sorted))
  {
    if sorted == [] {
    } else if Below(sorted[0], k) {
      forall j | 0 <= j < |sorted| ensures Below(sorted[j], k) {
        if j > 0 {
          BelowTransitive(sorted[j], sorted[0], k);
        }
      }
    } else if sorted[0] != k {
      BelowTotal(k, sorted[0]);
      InsertDescending(k, sorted[1..]);
      InsertMembers(k, sorted[1..]);
      DescendingCons(sorted[0], Insert(k, sorted[1..]));
    }
  }

  lemma DescendingCons(top: Key, rest: seq<Key>)
    requires Descending(rest) && forall x :: x in rest ==> Below(x, top)
    ensures Descending([top] + rest)
  {
  }

  lemma DescendingConcat(a: seq<Key>, b: seq<Key>)
    requires Descending(a) && Descending(b)
    requires forall x, y :: x in a && y in b ==> Below(y, x)
    ensures Descending(a + b)
  {
  }

  lemma TopIsUnique(a: seq<Key>, b: seq<Key>)
    requires a != [] && b != [] && Descending(a) && Descending(b)
    requires a[0] in b && b[0] in a
    ensures a[0] == b[0]
  {
    if a[0] != b[0] {
      assert Below(a[0], b[0]);
      assert Below(b[0], a[0]);
      BelowStrict(a[0], b[0]);
    }
  }

  lemma TailMembers(a: seq<Key>, b: seq<Key>)
    requires a != [] && b != [] && a[0] == b[0] && Descending(a)
    requires forall x :: x in a ==> x in b
    ensures forall x :: x in a[1..] ==> x in b[1..]
  {
    forall x | x in a[1..] ensures x in b[1..] {
      var i :| 0 <= i < |a[1..]| && a[1..][i] == x;
      assert x == a[i + 1];
      BelowStrict(x, a[0]);
      assert x in a && b == [b[0]] + b[1..];
    }
  }

  /** There is only one way to list a set of rows in descending order. */
  lemma {:induction false} ListingIsUnique(a: seq<Key>, b: seq<Key>)
    requires Descending(a) && Descending(b)
    requires forall x :: x in a <==> x in b
    ensures a == b
  {
    assert (a != [] ==> a[0] in b) && (b != [] ==> b[0] in a);
    if a != [] {
      TopIsUnique(a, b);
      TailMembers(a, b);
      TailMembers(b, a);
      ListingIsUnique(a[1..], b[1..]);
    }
  }

  // ---- one page ----

  /** Bounds on the creation time; an empty bound is none. */
  datatype Filter = Filter(since: string, until: string)

  predicate Selected(f: Filter, k: Key) {
    && (f.since != "" ==> !TextLess(k.createdAt, f.since))
    && (f.until != "" ==> !TextLess(f.until, k.createdAt))
  }

  predicate Follows(after: Option<Key>, k: Key) {
    after.None? || Below(k, after.value)
  }

  predicate Matches(f: Filter, after: Option<Key>, k: Key) {
    Selected(f, k) && Follows(after, k)
  }

  /** The rows among the first `n` that match, by descending creation time and id. */
  function ListingUpTo(rows: seq<Key>, f: Filter, after: Option<Key>, n: nat): seq<Key>
    requires n <= |rows|
  {
    if n == 0 then []
    else
      var front := ListingUpTo(rows, f, after, n - 1);
      if Matches(f, after, rows[n - 1]) then Insert(rows[n - 1], front) else front
  }

  function Listing(rows: seq<Key>, f: Filter, after: Option<Key>): seq<Key> {
    ListingUpTo(rows, f, after, |rows|)
  }

  lemma {:induction false} ListingUpToIs(rows: seq<Key>, f: Filter, after: Option<Key>, n: nat)
    requires n <= |rows|
    ensures Descending(ListingUpTo(rows, f, after, n)) && |ListingUpTo(rows, f, after, n)| <= n
    ensures forall k :: k in ListingUpTo(rows, f, after, n) <==> k in rows[..n] && Matches(f, after, k)
  {
    if n > 0 {
      var front := ListingUpTo(rows, f, after, n - 1);
      ListingUpToIs(rows, f, after, n - 1);
      InsertDescending(rows[n - 1], front);
      InsertMembers(rows[n - 1], front);
      assert rows[..n] == rows[..n - 1] + [rows[n - 1]];
      assert forall k :: k in rows[..n] <==> k in rows[..n - 1] || k == rows[n - 1];
    }
  }

  /** The query lists exactly the rows that match, each once, newest first. */
  lemma ListingIs(rows: seq<Key>, f: Filter, after: Option<Key>)
    ensures Descending(Listing(rows, f, after)) && |Listing(rows, f, after)| <= |rows|
    ensures forall k :: k in Listing(rows, f, after) <==> k in rows && Matches(f, after, k)
  {
    ListingUpToIs(rows, f, after, |rows|);
    assert rows[..|rows|] == rows;
  }

  datatype Page = Page(items: seq<Key>, next: Option<Key>)

  function Cut(listing: seq<Key>, limit: nat): Page {
    Page(listing[..Min(limit, |listing|)], if 0 < limit < |listing| then Some(listing[limit - 1]) else None)
  }

  /** The page after a row, and its last row if more follow. */
  function PageAfter(rows: seq<Key>, f: Filter, after: Option<Key>, limit: nat): Page {
    Cut(Listing(rows, f, after), limit)
  }

  datatype Response = Response(items: seq<Key>, nextCursor: Option<string>)

  /** One request: the cursor comes and goes as text. */
  method ListPage(rows: seq<Key>, f: Filter, cursor: Option<string>, limit: nat)
    returns (r: Result<Response, CursorError>)
    ensures match DecodeCursor(cursor)
            case Failure(e) => r == Failure(e)
            case Success(after) =>
              var page := PageAfter(rows, f, after, limit);
              r == Success(Response(page.items, CursorOf(page.next)))
  {
    var decoded := DecodeCursor(cursor);
    if decoded.Failure? {
      return Failure(decoded.error);
    }
    var page := FirstPage(Listing(rows, f, decoded.value), limit);
    r := Success(Response(page.items, CursorOf(page.next)));
  }

  /** What a task row can be asked for. */
  datatype TaskRow = TaskRow(key: Key, node: string, status: string, taskType: string)

  /** Conditions on node, status and type; an empty one is none. */
  predicate Asked(node: string, status: string, taskType: string, row: TaskRow) {
    && (node != "" ==> row.node == node)
    && (status != "" ==> row.status == status)
    && (taskType != "" ==> row.taskType == taskType)
  }

  function AskedUpTo(tasks: seq<TaskRow>, node: string, status: string, taskType: string, n: nat): seq<Key>
    requires n <= |tasks|
  {
    if n == 0 then []
    else
      AskedUpTo(tasks, node, status, taskType, n - 1)
      + if Asked(node, status, taskType, tasks[n - 1]) then [tasks[n - 1].key] else []
  }

  lemma {:induction false} AskedUpToIs(tasks: seq<TaskRow>, node: string, status: string, taskType: string, n: nat,
                                       k: Key)
    requires n <= |tasks|
    ensures k in AskedUpTo(tasks, node, status, taskType, n) <==>
            exists i :: 0 <= i < n && tasks[i].key == k && Asked(node, status, taskType, tasks[i])
  {
    if n > 0 {
      AskedUpToIs(tasks, node, status, taskType, n - 1, k);
    }
  }

  /** A task with this key passes every condition that is set and comes after the cursor's row: created before
      it, or at the same time with a smaller id. */
  ghost predicate Passes(tasks: seq<TaskRow>, node: string, status: string, taskType: string, since: string,
                         until: string, after: Option<Key>, k: Key)
  {
    && (exists i :: 0 <= i < |tasks| && tasks[i].key == k
                    && (node == "" || tasks[i].node == node) && (status == "" || tasks[i].status == status)
                    && (taskType == "" || tasks[i].taskType == taskType))
    && (since == "" || since == k.createdAt || TextLess(since, k.createdAt))
    && (until == "" || k.createdAt == until || TextLess(k.createdAt, until))
    && (after.Some? ==>
          || TextLess(k.createdAt, after.value.createdAt)
          || (k.createdAt == after.value.createdAt && k.id < after.value.id))
  }

  lemma MatchesSpelled(f: Filter, after: Option<Key>, k: Key)
    ensures Matches(f, after, k) <==>
            && (f.since == "" || f.since == k.createdAt || TextLess(f.since, k.createdAt))
            && (f.until == "" || k.createdAt == f.until || TextLess(k.createdAt, f.until))
            && (after.Some? ==>
                  || TextLess(k.createdAt, after.value.createdAt)
                  || (k.createdAt == after.value.createdAt && k.id < after.value.id))
  {
    TextLessTotal(f.since, k.createdAt);
    TextLessTotal(f.until, k.createdAt);
    TextLessIrreflexive(k.createdAt);
    if TextLess(f.since, k.createdAt) && TextLess(k.createdAt, f.since) {
      TextLessTransitive(k.createdAt, f.since, k.createdAt);
    }
    if TextLess(f.until, k.createdAt) && TextLess(k.createdAt, f.until) {
      TextLessTransitive(k.createdAt, f.until, k.createdAt);
    }
  }

  /** A page of the task list is the top of the tasks that pass every condition and come after the cursor's row:
      at most `limit`, only such tasks, the latest first, and one it does not list comes after all of it. */
  lemma TaskPageIsTop(tasks: seq<TaskRow>, node: string, status: string, taskType: string, f: Filter,
                      after: Option<Key>, limit: nat, k: Key)
    requires 0 < limit
    ensures var page := PageAfter(AskedUpTo(tasks, node, status, taskType, |tasks|), f, after, limit);
            && |page.items| <= limit && (page.next.Some? ==> |page.items| == limit)
            && (forall i, j :: 0 <= i < j < |page.items| ==>
                  || TextLess(page.items[j].createdAt, page.items[i].createdAt)
                  || (page.items[j].createdAt == page.items[i].createdAt && page.items[j].id < page.items[i].id))
            && (k in page.items ==> Passes(tasks, node, status, taskType, f.since, f.until, after, k))
            && (Passes(tasks, node, status, taskType, f.since, f.until, after, k) && k !in page.items ==>
                  page.next.Some? && page.next == Last(page.items) && Below(k, page.next.value))
  {
    PageIsTop(AskedUpTo(tasks, node, status, taskType, |tasks|), f, after, limit);
    AskedUpToIs(tasks, node, status, taskType, |tasks|, k);
    MatchesSpelled(f, after, k);
  }

  /** One request of the task list. */
  method ListTasks(tasks: seq<TaskRow>, node: string, status: string, taskType: string, f: Filter,
                   cursor: Option<string>, limit: nat)
    returns (r: Result<Response, CursorError>)
    ensures match DecodeCursor(cursor)
            case Failure(e) => r == Failure(e)
            case Success(after) =>
              var page := PageAfter(AskedUpTo(tasks, node, status, taskType, |tasks|), f, after, limit);
              r == Success(Response(page.items, CursorOf(page.next)))
  {
    r := ListPage(AskedUpTo(tasks, node, status, taskType, |tasks|), f, cursor, limit);
  }

  /** One row more than the limit is asked for, to learn whether there are more. */
  method FirstPage(listing: seq<Key>, limit: nat) returns (page: Page)
    ensures page == Cut(listing, limit)
  {
    var found := listing[..Min(limit + 1, |listing|)];
    var pageRows := found[..Min(limit, |found|)];
    var next: Option<Key> := None;
    if |found| > limit && |pageRows| > 0 {
      next := Some(pageRows[|pageRows| - 1]);
    }
    page := Page(pageRows, next);
  }

  function CursorOf(after: Option<Key>): Option<string> {
    if after.Some? then Some(EncodeCursor(after.value)) else None
  }

  /** A cursor taken from one page is accepted by the next request and stands for the same row. */
  lemma CursorIsFollowed(after: Option<Key>)
    ensures DecodeCursor(CursorOf(after)) == Success(after) && CursorOf(after) != Some("")
  {
    if after.Some? {
      CursorRoundTrip(after.value);
    }
  }

  /** A page is the top of a listing: what is not on it comes after all of it. */
  lemma CutIsTop(listing: seq<Key>, limit: nat)
    requires 0 < limit && Descending(listing)
    ensures var page := Cut(listing, limit);
            && Descending(page.items)
            && (forall k :: k in page.items ==> k in listing)
            && (page.next.Some? ==> Last(page.items) == page.next)
            && (forall k :: k in listing && k !in page.items ==> page.next.Some? && Below(k, page.next.value))
  {
    var page := Cut(listing, limit);
    assert forall i :: 0 <= i < |page.items| ==> listing[i] == page.items[i] && listing[i] in page.items;
    forall k | k in listing && k !in page.items ensures page.next.Some? && Below(k, page.next.value) {
      var i :| 0 <= i < |listing| && listing[i] == k;
      assert limit <= i;
    }
  }

  lemma CutLeavesRest(listing: seq<Key>, limit: nat)
    requires 0 < limit && Descending(listing) && Cut(listing, limit).next.Some?
    ensures listing[limit] in listing && listing[limit] !in Cut(listing, limit).items
  {
    forall i | 0 <= i < limit ensures listing[i] != listing[limit] {
      BelowStrict(listing[limit], listing[i]);
    }
  }

  /** A page lists rows that match, newest first; a row that matches and is not on the page comes after all
      of it, and there is such a row exactly when the page names a next one. */
  lemma PageIsTop(rows: seq<Key>, f: Filter, after: Option<Key>, limit: nat)
    requires 0 < limit
    ensures var page := PageAfter(rows, f, after, limit);
            && Descending(page.items) && |page.items| <= limit && (page.next.Some? ==> |page.items| == limit)
            && (forall k :: k in page.items ==> k in rows && Matches(f, after, k))
            && (page.next.Some? ==> Last(page.items) == page.next)
            && (forall k :: k in rows && Matches(f, after, k) && k !in page.items ==>
                              page.next.Some? && Below(k, page.next.value))
            && (page.next.Some? ==> exists k :: k in rows && Matches(f, after, k) && k !in page.items)
  {
    var listing := Listing(rows, f, after);
    ListingIs(rows, f, after);
    CutIsTop(listing, limit);
    if PageAfter(rows, f, after, limit).next.Some? {
      CutLeavesRest(listing, limit);
    }
  }

  // ---- following the cursors ----

  /** The rows collected, the row the next request starts after, and whether the end was reached. */
  datatype Traversal = Traversal(items: seq<Key>, after: Option<Key>, complete: bool)

  function Ask(t: Traversal, rows: seq<Key>, f: Filter, limit: nat): Traversal {
    if t.complete then t
    else
      var page := PageAfter(rows, f, t.after, limit);
      Traversal(t.items + page.items, if page.next.Some? then page.next else t.after, page.next.None?)
  }

  /** After at most `m` requests, request number i finding the table `tables[i]`. */
  function Visit(tables: seq<seq<Key>>, f: Filter, limit: nat, m: nat): Traversal
    requires m <= |tables|
  {
    if m == 0 then Traversal([], None, false) else Ask(Visit(tables, f, limit, m - 1), tables[m - 1], f, limit)
  }

  lemma {:induction false} VisitStays(tables: seq<seq<Key>>, f: Filter, limit: nat, m: nat, n: nat)
    requires m <= n <= |tables| && Visit(tables, f, limit, m).complete
    ensures Visit(tables, f, limit, n) == Visit(tables, f, limit, m)
  {
    if m < n {
      VisitStays(tables, f, limit, m, n - 1);
    }
  }

  /** A request whose cursor came from the page before is not rejected. */
  method FollowCursor(rows: seq<Key>, f: Filter, cursor: Option<string>, limit: nat, ghost after: Option<Key>)
    returns (page: Response, rejected: bool)
    requires cursor == CursorOf(after)
    ensures !rejected && page.nextCursor != Some("")
    ensures var expected := PageAfter(rows, f, after, limit);
            page.items == expected.items && page.nextCursor == CursorOf(expected.next)
  {
    CursorIsFollowed(after);
    CursorIsFollowed(PageAfter(rows, f, after, limit).next);
    var response := ListPage(rows, f, cursor, limit);
    if response.Failure? {
      return Response([], None), true;
    }
    page, rejected := response.value, false;
  }

  /** The loop passes the cursor on as text. */
  method RequestAllCursorPages(tables: seq<seq<Key>>, f: Filter, limit: nat)
    returns (items: seq<Key>, complete: bool, rejected: bool)
    ensures !rejected
    ensures items == Visit(tables, f, limit, |tables|).items
    ensures complete == Visit(tables, f, limit, |tables|).complete
  {
    items, rejected := [], false;
    var cursor: Option<string> := None;
    ghost var after: Option<Key> := None;
    for i := 0 to |tables|
      invariant Visit(tables, f, limit, i) == Traversal(items, after, false)
      invariant cursor == CursorOf(after) && !rejected
    {
      var page: Response;
      page, rejected := FollowCursor(tables[i], f, cursor, limit, after);
      if rejected {
        return items, false, true;
      }
      items := items + page.items;
      if page.nextCursor.None? || page.nextCursor.value == "" {
        VisitStays(tables, f, limit, i + 1, |tables|);
        return items, true, false;
      }
      cursor, after := page.nextCursor, PageAfter(tables[i], f, after, limit).next;
    }
    complete := false;
  }

  function Last(items: seq<Key>): Option<Key> {
    if items == [] then None else Some(items[|items| - 1])
  }

  predicate PresentThroughout(tables: seq<seq<Key>>, m: nat, k: Key)
    requires m <= |tables|
  {
    forall i :: 0 <= i < m ==> k in tables[i]
  }

  predicate PresentSometime(tables: seq<seq<Key>>, m: nat, k: Key)
    requires m <= |tables|
  {
    exists i :: 0 <= i < m && k in tables[i]
  }

  ghost predicate Inv(tables: seq<seq<Key>>, f: Filter, m: nat, t: Traversal)
    requires m <= |tables|
  {
    && Descending(t.items)
    && (!t.complete ==> t.after == Last(t.items))
    && (forall k :: k in t.items ==> Selected(f, k) && PresentSometime(tables, m, k))
    && (forall k :: Selected(f, k) && PresentThroughout(tables, m, k) && k !in t.items ==>
                      !t.complete && Follows(Last(t.items), k))
  }

  lemma AskKeepsOrder(items: seq<Key>, rows: seq<Key>, f: Filter, limit: nat)
    requires 0 < limit && Descending(items)
    ensures Descending(items + PageAfter(rows, f, Last(items), limit).items)
  {
    var page := PageAfter(rows, f, Last(items), limit);
    PageIsTop(rows, f, Last(items), limit);
    forall x, y | x in items && y in page.items ensures Below(y, x) {
      var last := items[|items| - 1];
      if x != last {
        BelowTransitive(y, last, x);
      }
    }
    DescendingConcat(items, page.items);
  }

  lemma AskKeepsInv(tables: seq<seq<Key>>, f: Filter, limit: nat, m: nat, t: Traversal)
    requires 0 < limit && m < |tables| && Inv(tables, f, m, t) && !t.complete
    ensures Inv(tables, f, m + 1, Ask(t, tables[m], f, limit))
  {
    var rows, u := tables[m], Ask(t, tables[m], f, limit);
    AskKeepsOrder(t.items, rows, f, limit);
    PageIsTop(rows, f, t.after, limit);
    forall k | k in u.items ensures Selected(f, k) && PresentSometime(tables, m + 1, k) {
      if k in t.items {
        var i :| 0 <= i < m && k in tables[i];
      } else {
        assert k in tables[m];
      }
    }
    forall k | Selected(f, k) && PresentThroughout(tables, m + 1, k) && k !in u.items
      ensures !u.complete && Follows(Last(u.items), k)
    {
      assert PresentThroughout(tables, m, k) && k in tables[m];
    }
  }

  lemma CompleteKeepsInv(tables: seq<seq<Key>>, f: Filter, m: nat, t: Traversal)
    requires m < |tables| && Inv(tables, f, m, t) && t.complete
    ensures Inv(tables, f, m + 1, t)
  {
    forall k | k in t.items ensures PresentSometime(tables, m + 1, k) {
      var i :| 0 <= i < m && k in tables[i];
    }
    assert forall k :: PresentThroughout(tables, m + 1, k) ==> PresentThroughout(tables, m, k);
  }

  lemma RequestKeepsInv(tables: seq<seq<Key>>, f: Filter, limit: nat, m: nat, t: Traversal)
    requires 0 < limit && m < |tables| && Inv(tables, f, m, t)
    ensures Inv(tables, f, m + 1, Ask(t, tables[m], f, limit))
  {
    if t.complete {
      CompleteKeepsInv(tables, f, m, t);
    } else {
      AskKeepsInv(tables, f, limit, m, t);
    }
  }

  lemma NothingVisited(tables: seq<seq<Key>>, f: Filter)
    ensures Inv(tables, f, 0, Traversal([], None, false))
  {
  }

  lemma {:induction false} VisitInv(tables: seq<seq<Key>>, f: Filter, limit: nat, m: nat)
    requires 0 < limit && m <= |tables|
    ensures Inv(tables, f, m, Visit(tables, f, limit, m))
  {
    if m > 0 {
      VisitInv(tables, f, limit, m - 1);
      RequestKeepsInv(tables, f, limit, m - 1, Visit(tables, f, limit, m - 1));
    } else {
      NothingVisited(tables, f);
    }
  }

  /** However the table changes between the requests, the rows collected are strictly descending, so none is
      there twice, each was in the table at some request, and a traversal that came to its end holds every
      row that was in the table at all of them. */
  lemma TraversalIsComplete(tables: seq<seq<Key>>, f: Filter, limit: nat, m: nat)
    requires 0 < limit && m <= |tables|
    ensures var t := Visit(tables, f, limit, m);
            && Descending(t.items)
            && (forall i, j :: 0 <= i < j < |t.items| ==> t.items[i] != t.items[j])
            && (forall k :: k in t.items ==> Selected(f, k) && PresentSometime(tables, m, k))
            && (t.complete ==>
                  forall k :: Selected(f, k) && PresentThroughout(tables, m, k) ==> k in t.items)
  {
    VisitInv(tables, f, limit, m);
    var t := Visit(tables, f, limit, m);
    forall i, j | 0 <= i < j < |t.items| ensures t.items[i] != t.items[j] {
      BelowStrict(t.items[j], t.items[i]);
    }
  }

  // ---- rows added on top ----

  /** Later tables hold the rows of the first, and otherwise only rows above all of them. */
  predicate GrowsOnTop(tables: seq<seq<Key>>) {
    forall i :: 0 <= i < |tables| ==>
                  && (forall k :: k in tables[0] ==> k in tables[i])
                  && (forall k, o :: k in tables[i] && k !in tables[0] && o in tables[0] ==> Below(o, k))
  }

  /** The rows of the first table as the first request finds them. */
  function Snapshot(tables: seq<seq<Key>>, f: Filter): seq<Key>
    requires tables != []
  {
    Listing(tables[0], f, None)
  }

  /** A row of a descending list comes after the row at `j - 1` exactly when it stands at `j` or later. */
  lemma BelowIsLater(s: seq<Key>, j: nat, x: Key)
    requires Descending(s) && 0 < j <= |s|
    ensures x in s[j..] <==> x in s && Below(x, s[j - 1])
  {
    if x in s[j..] {
      var n :| 0 <= n < |s| - j && s[j..][n] == x;
      assert x == s[j + n];
    }
    if x in s && Below(x, s[j - 1]) {
      var n :| 0 <= n < |s| && s[n] == x;
      BelowStrict(x, s[j - 1]);
      assert n >= j;
      assert s[j..][n - j] == x;
    }
  }

  /** New rows on top do not change what comes after the first `j` rows of the first table. */
  lemma RestOfSnapshot(tables: seq<seq<Key>>, f: Filter, i: nat, j: nat)
    requires i < |tables| && GrowsOnTop(tables)
    requires 0 < j <= |Snapshot(tables, f)|
    ensures var s := Snapshot(tables, f);
            Listing(tables[i], f, Some(s[j - 1])) == s[j..]
  {
    var s := Snapshot(tables, f);
    ListingIs(tables[0], f, None);
    var last := s[j - 1];
    var listing := Listing(tables[i], f, Some(last));
    ListingIs(tables[i], f, Some(last));
    forall x ensures x in listing <==> x in s[j..] {
      BelowIsLater(s, j, x);
      if x in listing && x !in tables[0] {
        assert last in s;
        BelowStrict(x, last);
      }
    }
    ListingIsUnique(listing, s[j..]);
  }

  lemma PageOfSnapshot(tables: seq<seq<Key>>, f: Filter, limit: nat, i: nat, j: nat)
    requires i < |tables| && GrowsOnTop(tables)
    requires j <= |Snapshot(tables, f)| && (j == 0 ==> i == 0)
    ensures var s := Snapshot(tables, f);
            PageAfter(tables[i], f, Last(s[..j]), limit) == Cut(s[j..], limit)
  {
    var s := Snapshot(tables, f);
    if j == 0 {
      assert s[0..] == s;
    } else {
      RestOfSnapshot(tables, f, i, j);
      assert Last(s[..j]) == Some(s[j - 1]);
    }
  }

  lemma CutOfRest(s: seq<Key>, limit: nat, j: nat)
    requires 0 < limit && j <= |s|
    ensures s[..j] + Cut(s[j..], limit).items == s[..Min(j + limit, |s|)]
    ensures Cut(s[j..], limit).next.Some? <==> j + limit < |s|
  {
  }

  /** The first `n` rows of the list were collected; the traversal is complete if that is all, except that at
      least one request is made. */
  predicate Reached(s: seq<Key>, t: Traversal, n: nat) {
    && t.items == s[..Min(n, |s|)]
    && (t.complete <==> n > 0 && |s| <= n)
  }

  /** One request that finds new rows only on top brings the next rows of the first table. */
  lemma AskForRest(tables: seq<seq<Key>>, f: Filter, limit: nat, i: nat, t: Traversal, n: nat)
    requires 0 < limit && i < |tables| && GrowsOnTop(tables)
    requires Reached(Snapshot(tables, f), t, n) && (n == 0 ==> i == 0)
    requires !t.complete ==> t.after == Last(t.items)
    ensures Reached(Snapshot(tables, f), Ask(t, tables[i], f, limit), n + limit)
  {
    if !t.complete {
      PageOfSnapshot(tables, f, limit, i, |t.items|);
      CutOfRest(Snapshot(tables, f), limit, |t.items|);
    }
  }

  /** `limit` rows for each request. */
  function Requested(limit: nat, m: nat): nat {
    if m == 0 then 0 else Requested(limit, m - 1) + limit
  }

  lemma {:induction false} RequestedIsProduct(limit: nat, m: nat)
    ensures Requested(limit, m) == m * limit
    ensures 0 < limit ==> m <= Requested(limit, m)
  {
    if m > 0 {
      RequestedIsProduct(limit, m - 1);
      assert m * limit == (m - 1) * limit + limit;
    }
  }

  lemma VisitPosition(tables: seq<seq<Key>>, f: Filter, limit: nat, m: nat)
    requires 0 < limit && m <= |tables|
    ensures var t := Visit(tables, f, limit, m);
            !t.complete ==> t.after == Last(t.items)
  {
    VisitInv(tables, f, limit, m);
  }

  lemma {:induction false} VisitSnapshot(tables: seq<seq<Key>>, f: Filter, limit: nat, m: nat)
    requires 0 < limit && tables != [] && m <= |tables| && GrowsOnTop(tables)
    ensures Reached(Snapshot(tables, f), Visit(tables, f, limit, m), Requested(limit, m))
  {
    if m > 0 {
      VisitSnapshot(tables, f, limit, m - 1);
      VisitPosition(tables, f, limit, m - 1);
      RequestedIsProduct(limit, m - 1);
      AskForRest(tables, f, limit, m - 1, Visit(tables, f, limit, m - 1), Requested(limit, m - 1));
    }
  }

  /** While rows are only added on top of those of the first table, every request brings the next `limit` rows
      of that table: the traversal ends once all of them were asked for, and what it returns is the list as
      it was at the first request. */
  lemma TraversalIsSnapshot(tables: seq<seq<Key>>, f: Filter, limit: nat, m: nat)
    requires 0 < limit && 0 < m <= |tables| && GrowsOnTop(tables)
    ensures var s, t := Snapshot(tables, f), Visit(tables, f, limit, m);
            && t.items == s[..Min(m * limit, |s|)]
            && (t.complete <==> |s| <= m * limit)
  {
    VisitSnapshot(tables, f, limit, m);
    RequestedIsProduct(limit, m);
  }

  /** A table that stays as it is is listed whole: each of its rows that pass the filter, once, in order. */
  lemma StaticTraversalIsWhole(tables: seq<seq<Key>>, f: Filter, limit: nat)
    requires 0 < limit && tables != [] && |tables[0]| < |tables|
    requires forall i :: 0 <= i < |tables| ==> tables[i] == tables[0]
    ensures var t := Visit(tables, f, limit, |tables|);
            && t.complete
            && Descending(t.items)
            && forall k :: k in t.items <==> k in tables[0] && Selected(f, k)
  {
    ListingIs(tables[0], f, None);
    VisitSnapshot(tables, f, limit, |tables|);
    RequestedIsProduct(limit, |tables|);
  }
}

/**
 Keyset pagination of the inventory list: six orders, a cursor condition per order, and the walk
 a client makes by following `nextCursor` over a collection that does not change.

 The collection is the rows of one user that pass the filters; a cursor is its decoded payload.
 Dates, names and prices are compared only, so they are integers; only a price can be missing.
 */
module Pagination {
  import opened Types
  import opened Sorting

  datatype SortKey = AcquiredAt | Name | Price
  datatype Dir = Asc | Desc
  datatype SortSpec = SortSpec(key: SortKey, dir: Dir)

  datatype Entry = Entry(id: nat, acquiredAt: int, name: int, price: Option<int>)

  datatype Cursor = Cursor(v: Option<int>, id: nat)

  datatype Page = Page(items: seq<Entry>, total: nat, next: Option<Cursor>)

  function SortValue(key: SortKey, row: Entry): Option<int> {
    match key
    case AcquiredAt => Some(row.acquiredAt)
    case Name => Some(row.name)
    case Price => row.price
  }

  predicate Beyond(dir: Dir, a: int, b: int) { if dir.Asc? then a > b else a < b }

  // ---- ORDER BY ----

  /** `orderBy`: the key in its direction with missing values last, then the id in the same direction. */
  predicate Before(spec: SortSpec, a: Entry, b: Entry) {
    match (SortValue(spec.key, a), SortValue(spec.key, b))
    case (Some(x), Some(y)) => Beyond(spec.dir, y, x) || (x == y && Beyond(spec.dir, b.id, a.id))
    case (Some(_), None) => true
    case (None, Some(_)) => false
    case (None, None) => Beyond(spec.dir, b.id, a.id)
  }

  /** The sort key of that order; no two ids share one. */
  function EntryKey(spec: SortSpec): Entry -> Key {
    (e: Entry) =>
      var sign := if spec.dir.Asc? then 1 else -1;
      match SortValue(spec.key, e)
      case Some(x) => (0, sign * x, sign * e.id)
      case None => (1, 0, sign * e.id)
  }

  function Sorted(spec: SortSpec, rows: seq<Entry>): seq<Entry> { SortBy(rows, EntryKey(spec)) }

  /** The rows the database puts first are those with the smaller key. */
  lemma KeyOrders(spec: SortSpec, a: Entry, b: Entry)
    ensures Before(spec, a, b) <==> Leq(EntryKey(spec)(a), EntryKey(spec)(b)) && EntryKey(spec)(a) != EntryKey(spec)(b)
    ensures a.id != b.id ==> EntryKey(spec)(a) != EntryKey(spec)(b)
  {
  }

  /** The primary key. */
  ghost predicate DistinctIds(rows: seq<Entry>) { forall i, j :: 0 <= i < j < |rows| ==> rows[i].id != rows[j].id }

  ghost predicate InOrder(spec: SortSpec, s: seq<Entry>) { forall i, j :: 0 <= i < j < |s| ==> Before(spec, s[i], s[j]) }

  /** The ordered list is a permutation of the rows, strictly in order. */
  lemma SortedRows(spec: SortSpec, rows: seq<Entry>)
    requires DistinctIds(rows)
    ensures multiset(Sorted(spec, rows)) == multiset(rows) && |Sorted(spec, rows)| == |rows|
    ensures forall e :: e in Sorted(spec, rows) <==> e in rows
    ensures InOrder(spec, Sorted(spec, rows))
  {
    var all := Sorted(spec, rows);
    SortElements(rows, EntryKey(spec));
    DistinctNumbers(rows, all, (e: Entry) => e.id);
    forall i, j | 0 <= i < j < |all| ensures Before(spec, all[i], all[j]) {
      OrderedPairs(all, EntryKey(spec), i, j);
      KeyOrders(spec, all[i], all[j]);
    }
  }

  /**
   Which of two rows a list shows first, on the rows' own fields: by date, name or price up or down,
   equal ones by id the same way, and the unpriced after every priced one in both directions.
   */
  predicate Listed(spec: SortSpec, a: Entry, b: Entry) {
    match spec
    case SortSpec(AcquiredAt, Asc) => a.acquiredAt < b.acquiredAt || (a.acquiredAt == b.acquiredAt && a.id < b.id)
    case SortSpec(AcquiredAt, Desc) => a.acquiredAt > b.acquiredAt || (a.acquiredAt == b.acquiredAt && a.id > b.id)
    case SortSpec(Name, Asc) => a.name < b.name || (a.name == b.name && a.id < b.id)
    case SortSpec(Name, Desc) => a.name > b.name || (a.name == b.name && a.id > b.id)
    case SortSpec(Price, Asc) =>
      if a.price.Some? && b.price.Some? then a.price.value < b.price.value || (a.price == b.price && a.id < b.id)
      else a.price.Some? || (b.price.None? && a.id < b.id)
    case SortSpec(Price, Desc) =>
      if a.price.Some? && b.price.Some? then a.price.value > b.price.value || (a.price == b.price && a.id > b.id)
      else a.price.Some? || (b.price.None? && a.id > b.id)
  }

  lemma BeforeIff(spec: SortSpec, a: Entry, b: Entry)
    ensures Before(spec, a, b) <==> Listed(spec, a, b)
  {
  }

  /** Every row of a list comes before every later one. */
  ghost predicate AllListed(spec: SortSpec, s: seq<Entry>) { forall i, j :: 0 <= i < j < |s| ==> Listed(spec, s[i], s[j]) }

  lemma OrderListed(spec: SortSpec, s: seq<Entry>)
    ensures InOrder(spec, s) <==> AllListed(spec, s)
  {
    forall i, j | 0 <= i < j < |s| ensures Before(spec, s[i], s[j]) <==> Listed(spec, s[i], s[j]) { BeforeIff(spec, s[i], s[j]); }
  }

  /** In every sort the order is strict and total on rows with different ids. */
  lemma StrictTotalOrder(spec: SortSpec, a: Entry, b: Entry, c: Entry)
    ensures !Before(spec, a, a)
    ensures a.id != b.id ==> (Before(spec, a, b) <==> !Before(spec, b, a))
    ensures Before(spec, a, b) && Before(spec, b, c) ==> Before(spec, a, c)
  {
  }

  // ---- the cursor condition ----

  /** What `nextCursor` carries of the last row. */
  function CursorOf(spec: SortSpec, row: Entry): Cursor { Cursor(SortValue(spec.key, row), row.id) }

  /** `afterCursor`: the WHERE clause; a comparison with a missing value is never true. */
  predicate AfterCursor(spec: SortSpec, c: Cursor, row: Entry) {
    var value := SortValue(spec.key, row);
    if c.v.None? then value.None? && Beyond(spec.dir, row.id, c.id)
    else
      || (value.Some? && Beyond(spec.dir, value.value, c.v.value))
      || (value.Some? && value.value == c.v.value && Beyond(spec.dir, row.id, c.id))
      || (spec.key.Price? && value.None?)
  }

  /** The clause selects exactly the rows strictly after the cursor's row. */
  lemma AfterCursorIff(spec: SortSpec, r: Entry, row: Entry)
    ensures AfterCursor(spec, CursorOf(spec, r), row) <==> Before(spec, r, row)
    ensures AfterCursor(spec, CursorOf(spec, r), row) <==> Listed(spec, r, row)
  {
  }

  // ---- one page ----

  function Selected(spec: SortSpec, c: Option<Cursor>, rows: seq<Entry>): seq<Entry> {
    if rows == [] then []
    else (if c.None? || AfterCursor(spec, c.value, rows[0]) then [rows[0]] else []) + Selected(spec, c, rows[1..])
  }

  function First(s: seq<Entry>, n: nat): seq<Entry> { if |s| <= n then s else s[..n] }

  /** `list`: one row more than the page is read, to know whether another page follows. */
  function List(spec: SortSpec, scope: seq<Entry>, pageSize: nat, c: Option<Cursor>): Page {
    PageOf(spec, First(Sorted(spec, Selected(spec, c, scope)), pageSize + 1), |scope|, pageSize)
  }

  function PageOf(spec: SortSpec, rows: seq<Entry>, total: nat, pageSize: nat): Page {
    var items := First(rows, pageSize);
    Page(items, total, if |rows| > pageSize && items != [] then Some(CursorOf(spec, items[|items| - 1])) else None)
  }

  // ---- the walk ----

  lemma {:induction false} SelectedRows(spec: SortSpec, c: Option<Cursor>, rows: seq<Entry>)
    ensures forall e :: e in Selected(spec, c, rows) <==> e in rows && (c.None? || AfterCursor(spec, c.value, e))
    ensures DistinctIds(rows) ==> DistinctIds(Selected(spec, c, rows))
    ensures c.None? ==> Selected(spec, c, rows) == rows
  {
    if rows != [] {
      SelectedRows(spec, c, rows[1..]);
      if DistinctIds(rows) {
        assert DistinctIds(rows[1..]);
        forall e | e in Selected(spec, c, rows[1..]) ensures e.id != rows[0].id { assert e in rows[1..]; }
      }
    }
  }

  /** Two strictly ordered lists with the same members are the same list. */
  lemma {:induction false} SameMembersSameList(spec: SortSpec, a: seq<Entry>, b: seq<Entry>)
    requires InOrder(spec, a) && InOrder(spec, b) && forall e :: e in a <==> e in b
    ensures a == b
  {
    if a == [] {
      assert forall k :: 0 <= k < |b| ==> b[k] in a;
    } else {
      assert a[0] in b;
      assert b[0] in a;
      SameHead(spec, a, b);
      forall e ensures e in a[1..] <==> e in b[1..] { TailMembers(spec, a, e); TailMembers(spec, b, e); }
      SameMembersSameList(spec, a[1..], b[1..]);
      assert a == [a[0]] + a[1..] && b == [b[0]] + b[1..];
    }
  }

  lemma SameHead(spec: SortSpec, a: seq<Entry>, b: seq<Entry>)
    requires InOrder(spec, a) && InOrder(spec, b) && a != [] && b != [] && a[0] in b && b[0] in a
    ensures a[0] == b[0]
  {
    var i :| 0 <= i < |b| && b[i] == a[0];
    var j :| 0 <= j < |a| && a[j] == b[0];
    assert i > 0 ==> Before(spec, b[0], b[i]);
    assert j > 0 ==> Before(spec, a[0], a[j]);
    StrictTotalOrder(spec, a[0], b[0], a[0]);
  }

  /** The tail of a strictly ordered list has every member but the head. */
  lemma TailMembers(spec: SortSpec, a: seq<Entry>, e: Entry)
    requires InOrder(spec, a) && a != []
    ensures e in a[1..] <==> e in a && e != a[0]
  {
    assert a == [a[0]] + a[1..];
    if e in a[1..] {
      var k :| 0 <= k < |a| - 1 && a[1..][k] == e;
      assert Before(spec, a[0], a[k + 1]);
      StrictTotalOrder(spec, a[0], a[0], a[0]);
    }
  }

  /** What a cursor selects, in order, is the rest of the whole ordered list. */
  lemma SelectedIsRest(spec: SortSpec, scope: seq<Entry>, i: nat)
    requires DistinctIds(scope) && i < |Sorted(spec, scope)|
    ensures Sorted(spec, Selected(spec, Some(CursorOf(spec, Sorted(spec, scope)[i])), scope)) == Sorted(spec, scope)[i + 1..]
  {
    var all := Sorted(spec, scope);
    var c := Some(CursorOf(spec, all[i]));
    var selected := Selected(spec, c, scope);
    SortedRows(spec, scope);
    SelectedRows(spec, c, scope);
    SortedRows(spec, selected);
    forall e ensures e in Sorted(spec, selected) <==> e in all[i + 1..] {
      AfterCursorIff(spec, all[i], e);
      RestMembers(spec, all, i, e);
    }
    SameMembersSameList(spec, Sorted(spec, selected), all[i + 1..]);
  }

  lemma RestMembers(spec: SortSpec, all: seq<Entry>, i: nat, e: Entry)
    requires InOrder(spec, all) && i < |all|
    ensures e in all[i + 1..] <==> e in all && Before(spec, all[i], e)
  {
    if e in all && Before(spec, all[i], e) {
      var k :| 0 <= k < |all| && all[k] == e;
      assert k < i ==> Before(spec, all[k], all[i]);
      StrictTotalOrder(spec, all[i], e, all[i]);
      assert all[i + 1..][k - i - 1] == e;
    }
    if e in all[i + 1..] {
      var k :| 0 <= k < |all| - i - 1 && all[i + 1..][k] == e;
      assert all[i + 1 + k] == e;
    }
  }

  /** How many rows of the whole ordered list a client has behind it. */
  ghost predicate Stands(spec: SortSpec, all: seq<Entry>, c: Option<Cursor>, behind: nat) {
    if c.None? then behind == 0 else 0 < behind <= |all| && c.value == CursorOf(spec, all[behind - 1])
  }

  /** A page is the next stretch of the whole ordered list; its cursor stands at its end, or nothing is left. */
  ghost predicate NextStretch(spec: SortSpec, all: seq<Entry>, behind: nat, n: nat, page: Page) {
    && behind + |page.items| <= |all| && page.items == all[behind..behind + |page.items|]
    && (page.next.Some? ==> |page.items| == n && Stands(spec, all, page.next, behind + n))
    && (page.next.None? <==> behind + |page.items| == |all|)
  }

  lemma PageIsStretch(spec: SortSpec, scope: seq<Entry>, pageSize: nat, c: Option<Cursor>, behind: nat)
    requires DistinctIds(scope) && pageSize >= 1 && Stands(spec, Sorted(spec, scope), c, behind)
    ensures NextStretch(spec, Sorted(spec, scope), behind, pageSize, List(spec, scope, pageSize, c))
    ensures List(spec, scope, pageSize, c).total == |Sorted(spec, scope)|
    // The whole list holds each row once, in order of the rows' fields.
    ensures multiset(Sorted(spec, scope)) == multiset(scope) && AllListed(spec, Sorted(spec, scope))
  {
    SortedRows(spec, scope);
    OrderListed(spec, Sorted(spec, scope));
    RestAt(spec, scope, c, behind);
    Stretch(spec, Sorted(spec, scope), behind, |scope|, pageSize);
  }

  /** What a client's cursor selects, in order, is what it has not seen. */
  lemma RestAt(spec: SortSpec, scope: seq<Entry>, c: Option<Cursor>, behind: nat)
    requires DistinctIds(scope) && Stands(spec, Sorted(spec, scope), c, behind)
    ensures |Sorted(spec, scope)| == |scope| && behind <= |scope|
    ensures Sorted(spec, Selected(spec, c, scope)) == Sorted(spec, scope)[behind..]
  {
    SortedRows(spec, scope);
    if c.None? {
      SelectedRows(spec, c, scope);
      assert Sorted(spec, scope)[0..] == Sorted(spec, scope);
    } else {
      SelectedIsRest(spec, scope, behind - 1);
    }
  }

  /** Reading one row more than the page tells whether it is the last. */
  lemma Stretch(spec: SortSpec, all: seq<Entry>, behind: nat, total: nat, n: nat)
    requires behind <= |all| && n >= 1
    ensures var page := PageOf(spec, First(all[behind..], n + 1), total, n);
      page.total == total && NextStretch(spec, all, behind, n, page)
  {
    var rest := all[behind..];
    assert |rest| == |all| - behind;
    if |rest| > n {
      assert First(First(rest, n + 1), n) == all[behind..behind + n];
    } else {
      assert rest == all[behind..behind + |rest|];
    }
  }

  lemma Join(all: seq<Entry>, i: nat, j: nat)
    requires i <= j <= |all|
    ensures all[..i] + all[i..j] == all[..j]
  {
  }

  /** A client has seen a beginning of the whole list, and its cursor stands at the end of it, or it has seen all. */
  ghost predicate Seen(spec: SortSpec, all: seq<Entry>, seen: seq<Entry>, next: Option<Cursor>) {
    && |seen| <= |all| && seen == all[..|seen|]
    && if next.Some? then Stands(spec, all, next, |seen|) else |seen| == |all|
  }

  lemma SeenGrows(spec: SortSpec, all: seq<Entry>, seen: seq<Entry>, n: nat, page: Page)
    requires |seen| <= |all| && seen == all[..|seen|] && NextStretch(spec, all, |seen|, n, page)
    ensures Seen(spec, all, seen + page.items, page.next)
  {
    Join(all, |seen|, |seen| + |page.items|);
  }

  /** A client that follows `nextCursor` until it is null. */
  method Walk(spec: SortSpec, scope: seq<Entry>, pageSize: nat) returns (seen: seq<Entry>)
    requires DistinctIds(scope) && pageSize >= 1
    // The whole list, each row once, in order.
    ensures seen == Sorted(spec, scope)
    ensures multiset(seen) == multiset(scope) && AllListed(spec, seen)
  {
    ghost var all := Sorted(spec, scope);
    seen := [];
    var page := List(spec, scope, pageSize, None);
    PageIsStretch(spec, scope, pageSize, None, 0);
    SeenGrows(spec, all, seen, pageSize, page);
    seen := seen + page.items;
    while page.next.Some?
      invariant Seen(spec, all, seen, page.next)
      decreases |all| - |seen|, if page.next.Some? then 1 else 0
    {
      PageIsStretch(spec, scope, pageSize, page.next, |seen|);
      page := List(spec, scope, pageSize, page.next);
      SeenGrows(spec, all, seen, pageSize, page);
      seen := seen + page.items;
    }
    assert all[..|all|] == all;
    SortedRows(spec, scope);
    OrderListed(spec, all);
  }
}

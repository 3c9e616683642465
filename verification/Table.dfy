/**
 * The users table as a value: what each repository operation does to it,
 * and which listings it admits.
 */
module Table {
  import opened Core
  import opened Paging

  type Rows = map<Uuid, User>

  predicate WellKeyed(t: Rows) {
    forall id :: id in t ==> t[id].id == id
  }

  predicate IsLive(t: Rows, id: Uuid) {
    id in t && t[id].Live()
  }

  predicate IsTombstone(t: Rows, id: Uuid) {
    id in t && !t[id].Live()
  }

  function LiveIds(t: Rows): set<Uuid> {
    set id | id in t && t[id].Live()
  }

  // ----- the in-memory repository's operations -----

  function CreateRow(t: Rows, u: User): Result<Rows> {
    if u.id in t then Err(DuplicateId) else Ok(t[u.id := u])
  }

  function GetRow(t: Rows, id: Uuid): Result<User> {
    if IsLive(t, id) then Ok(t[id]) else Err(NotFound)
  }

  function UpdateRow(t: Rows, u: User): Result<Rows> {
    if IsLive(t, u.id) then Ok(t[u.id := u]) else Err(NotFound)
  }

  function DeleteRow(t: Rows, id: Uuid, now: Time): Result<Rows> {
    if IsLive(t, id) then Ok(t[id := t[id].(deletedAt := Some(now))]) else Err(NotFound)
  }

  // ----- listings -----

  predicate Descending(order: seq<User>) {
    forall i, j :: 0 <= i < j < |order| ==> order[i].createdAt >= order[j].createdAt
  }

  predicate NoRepeats(order: seq<User>) {
    forall i, j :: 0 <= i < j < |order| ==> order[i].id != order[j].id
  }

  ghost predicate SameRows(t: Rows, order: seq<User>) {
    && (forall u :: u in order ==> IsLive(t, u.id) && t[u.id] == u)
    && (forall id :: IsLive(t, id) ==> t[id] in order)
  }

  /** One of the orders `ORDER BY created_at DESC` may produce; ties are in any order. */
  ghost predicate Ordering(t: Rows, order: seq<User>) {
    Descending(order) && NoRepeats(order) && SameRows(t, order)
  }

  /** What List may return on table `t`: a page of some descending order of the live rows. */
  ghost predicate ListAllowed(t: Rows, page: int64, size: int64, out: Outcome<User>) {
    exists order :: Ordering(t, order) && out == MemoryPage(order, page, size)
  }

  lemma {:induction false} AtMostOnce(order: seq<User>, u: User)
    requires NoRepeats(order)
    ensures multiset(order)[u] <= 1
  {
    if order != [] {
      var n := |order| - 1;
      AtMostOnce(order[..n], u);
      assert order == order[..n] + [order[n]];
    }
  }

  /** Re-ordering a listing keeps its rows, each once. */
  lemma PermutationKeepsRows(t: Rows, a: seq<User>, b: seq<User>)
    requires multiset(a) == multiset(b) && NoRepeats(a) && SameRows(t, a)
    ensures NoRepeats(b) && SameRows(t, b)
  {
    forall u
      ensures u in a <==> u in b
    {
      assert u in a <==> u in multiset(a);
      assert u in b <==> u in multiset(b);
    }
    forall i, j | 0 <= i < j < |b|
      ensures b[i].id != b[j].id
    {
      if b[i].id == b[j].id {
        assert b[i] in a && b[j] in a;
        assert b[i] == b[j];
        assert b == b[..j] + b[j..];
        assert b[i] in b[..j] && b[i] in b[j..];
        AtMostOnce(a, b[i]);
        assert false;
      }
    }
  }

  /** Any sorted permutation of the live rows gives a listing the source may return. */
  lemma SortedIsAllowed(t: Rows, list: seq<User>, sorted: seq<User>, page: int64, size: int64)
    requires NoRepeats(list) && SameRows(t, list)
    requires multiset(sorted) == multiset(list) && Descending(sorted)
    ensures ListAllowed(t, page, size, MemoryPage(sorted, page, size))
  {
    PermutationKeepsRows(t, list, sorted);
    assert Ordering(t, sorted);
  }

  function Ids(order: seq<User>): set<Uuid> {
    set u | u in order :: u.id
  }

  lemma {:induction false} IdsCount(order: seq<User>)
    requires NoRepeats(order)
    ensures |Ids(order)| == |order|
  {
    if order == [] {
      assert Ids(order) == {};
    } else {
      var n := |order| - 1;
      IdsCount(order[..n]);
      OneMoreId(order, n);
      assert order[n].id !in Ids(order[..n]);
    }
  }

  lemma OneMoreId(order: seq<User>, n: nat)
    requires |order| == n + 1
    ensures Ids(order) == Ids(order[..n]) + {order[n].id}
  {
    assert order == order[..n] + [order[n]];
  }

  /** Every table can be listed: insert its live rows one by one. */
  lemma {:induction false} OrderingExists(t: Rows) returns (order: seq<User>)
    requires WellKeyed(t)
    ensures Ordering(t, order)
    decreases |t|
  {
    order := [];
    if t != map[] {
      var id :| id in t;
      var rest := t - {id};
      var before := OrderingExists(rest);
      order := before;
      if t[id].Live() {
        order := InsertRow(before, t[id]);
      }
      assert forall x :: IsLive(t, x) <==> IsLive(rest, x) || (x == id && t[id].Live());
    }
  }

  lemma {:induction false} InsertRow(before: seq<User>, u: User) returns (after: seq<User>)
    requires Descending(before) && NoRepeats(before) && forall x :: x in before ==> x.id != u.id
    ensures Descending(after) && NoRepeats(after)
    ensures forall x :: x in after <==> x in before || x == u
  {
    if before == [] || before[0].createdAt <= u.createdAt {
      after := [u] + before;
    } else {
      var rest := InsertRow(before[1..], u);
      after := [before[0]] + rest;
      assert forall x :: x in rest ==> x.createdAt <= before[0].createdAt && x.id != before[0].id;
    }
  }

  /** Every listing has exactly the live rows, so its length is the live count. */
  lemma OrderingLength(t: Rows, order: seq<User>)
    requires WellKeyed(t) && Ordering(t, order)
    ensures |order| == |LiveIds(t)|
  {
    IdsCount(order);
    assert (set u | u in order :: u.id) == LiveIds(t);
  }

  /** The reported total is the live count, and only live rows are listed. */
  lemma ListReportsLiveRows(t: Rows, page: int64, size: int64, out: Outcome<User>)
    requires WellKeyed(t) && ListAllowed(t, page, size, out) && out.Page?
    ensures out.total == |LiveIds(t)|
    ensures forall u :: u in out.items ==> IsLive(t, u.id) && t[u.id] == u
  {
    var order :| Ordering(t, order) && out == MemoryPage(order, page, size);
    OrderingLength(t, order);
    forall u | u in out.items
      ensures u in order
    {
    }
  }

  /** Rows come newest first, and no live row missing from the first page is newer than one shown on it. */
  lemma NewestFirst(t: Rows, page: int64, size: int64, out: Outcome<User>)
    requires ListAllowed(t, page, size, out) && out.Page?
    ensures forall i, j :: 0 <= i < j < |out.items| ==> out.items[i].createdAt >= out.items[j].createdAt
    ensures page <= 1 ==> forall id, u :: IsLive(t, id) && t[id] !in out.items && u in out.items ==>
              u.createdAt >= t[id].createdAt
  {
    var order :| Ordering(t, order) && out == MemoryPage(order, page, size);
    if page <= 1 {
      assert Offset(page, size) == 0;
      assert out.items <= order;
      forall id, u | IsLive(t, id) && t[id] !in out.items && u in out.items ensures u.createdAt >= t[id].createdAt {
        var i, j :| 0 <= i < |out.items| && out.items[i] == u && 0 <= j < |order| && order[j] == t[id];
        assert order[i] == u;
      }
    }
  }

  ghost predicate DistinctCreation(t: Rows) {
    forall x, y :: IsLive(t, x) && IsLive(t, y) && t[x].createdAt == t[y].createdAt ==> x == y
  }

  /** Without ties there is only one listing. */
  lemma {:induction false} OrderingUnique(t: Rows, a: seq<User>, b: seq<User>)
    requires WellKeyed(t) && DistinctCreation(t) && Ordering(t, a) && Ordering(t, b)
    ensures a == b
  {
    OrderingLength(t, a);
    OrderingLength(t, b);
    OrderingUniqueUpTo(t, a, b, |a|);
    assert a[..|a|] == a && b[..|a|] == b;
  }

  /** Where a row of one listing sits in another. */
  lemma PositionIn(t: Rows, a: seq<User>, k: nat, b: seq<User>) returns (i: nat)
    requires SameRows(t, a) && SameRows(t, b) && k < |a|
    ensures i < |b| && b[i] == a[k]
  {
    assert a[k] in a;
    assert t[a[k].id] in b;
    i :| i < |b| && b[i] == a[k];
  }

  /** After a common prefix, the row at k of one listing comes no earlier in the other. */
  lemma NotEarlier(a: seq<User>, b: seq<User>, k: nat, i: nat)
    requires NoRepeats(a) && k < |a| && i < |b| && b[i] == a[k]
    requires k <= |b| && a[..k] == b[..k]
    ensures i >= k
  {
  }

  lemma {:induction false} OrderingUniqueUpTo(t: Rows, a: seq<User>, b: seq<User>, n: nat)
    requires WellKeyed(t) && DistinctCreation(t) && Ordering(t, a) && Ordering(t, b)
    requires n <= |a| == |b|
    ensures a[..n] == b[..n]
  {
    if n > 0 {
      var k := n - 1;
      OrderingUniqueUpTo(t, a, b, k);
      var i := PositionIn(t, a, k, b);
      var j := PositionIn(t, b, k, a);
      NotEarlier(a, b, k, i);
      NotEarlier(b, a, k, j);
      assert a[k].createdAt == b[k].createdAt;
      assert a[k] in a && b[k] in b;
      assert a[..n] == a[..k] + [a[k]] && b[..n] == b[..k] + [b[k]];
    }
  }

  function Items(outs: seq<Outcome<User>>): seq<seq<User>>
    requires forall out :: out in outs ==> out.Page?
  {
    seq(|outs|, i requires 0 <= i < |outs| => outs[i].items)
  }

  /** Without ties, whatever order a call sorted into, page i+1 is the same slice of `order`. */
  lemma OnePage(t: Rows, order: seq<User>, i: nat, size: int64, out: Outcome<User>)
    requires WellKeyed(t) && DistinctCreation(t) && Ordering(t, order)
    requires size > 0 && i + 1 <= MAX_INT
    requires |order| + size <= MAX_INT && Times(i + 1, size) <= MAX_INT
    requires ListAllowed(t, i + 1, size, out)
    ensures out == Page(SliceOf(order, Times(i, size), size), |order|)
  {
    var o :| Ordering(t, o) && out == MemoryPage(o, i + 1, size);
    OrderingUnique(t, o, order);
    TimesNext(i, size);
    assert Offset(i + 1, size) == Times(i, size);
    MemoryPageExactIff(order, i + 1, size);
  }

  /**
   * Separate List calls on an unchanged table without ties: pages 1..ceil(total/size) together
   * list every live user exactly once, newest first, and later pages are empty.
   */
  lemma SeparatePagesPartition(t: Rows, size: int64, outs: seq<Outcome<User>>) returns (order: seq<User>)
    requires WellKeyed(t) && DistinctCreation(t) && size > 0
    requires |LiveIds(t)| + size <= MAX_INT && Times(|outs|, size) <= MAX_INT && |outs| <= MAX_INT
    requires |outs| >= 1 && |outs| >= PageCount(|LiveIds(t)|, size)
    requires forall i: nat :: i < |outs| ==> ListAllowed(t, i + 1, size, outs[i])
    ensures forall out :: out in outs ==> out.Page? && out.total == |LiveIds(t)|
    ensures Ordering(t, order)
    ensures Concat(Items(outs)) == order
    ensures forall i :: PageCount(|LiveIds(t)|, size) <= i < |outs| ==> outs[i].items == []
  {
    assert ListAllowed(t, 0 + 1, size, outs[0]);
    order :| Ordering(t, order) && outs[0] == MemoryPage(order, 1, size);
    PagesOfOneOrder(t, size, outs, order);
  }

  lemma PagesOfOneOrder(t: Rows, size: int64, outs: seq<Outcome<User>>, order: seq<User>)
    requires WellKeyed(t) && DistinctCreation(t) && size > 0 && Ordering(t, order)
    requires |LiveIds(t)| + size <= MAX_INT && Times(|outs|, size) <= MAX_INT && |outs| <= MAX_INT
    requires |outs| >= PageCount(|LiveIds(t)|, size)
    requires forall i: nat :: i < |outs| ==> ListAllowed(t, i + 1, size, outs[i])
    ensures forall out :: out in outs ==> out.Page? && out.total == |LiveIds(t)|
    ensures Concat(Items(outs)) == order
    ensures forall i :: PageCount(|LiveIds(t)|, size) <= i < |outs| ==> outs[i].items == []
  {
    hide Ordering, MemoryPage, ListAllowed, WellKeyed, DistinctCreation, LiveIds, SliceOf, PageCount, Concat, Times;
    OrderingLength(t, order);
    forall i: nat | i < |outs|
      ensures outs[i] == Page(SliceOf(order, Times(i, size), size), |order|)
    {
      TimesMonotone(i + 1, |outs|, size);
      OnePage(t, order, i, size, outs[i]);
    }
    assert ExactPages(order, size, Items(outs));
    PagesPartition(order, size, Items(outs));
  }

  /** With ties two calls may disagree: both one-row pages of a two-row table can show the same row. */
  lemma TiesMayRepeat(x: User, y: User)
    requires x.id != y.id && x.createdAt == y.createdAt && x.Live() && y.Live()
    ensures var t := map[x.id := x, y.id := y];
            ListAllowed(t, 1, 1, Page([x], 2)) && ListAllowed(t, 2, 1, Page([x], 2))
  {
    var t := map[x.id := x, y.id := y];
    var a, b := [x, y], [y, x];
    assert Ordering(t, a) && Ordering(t, b);
    assert MemoryPage(a, 1, 1) == Page([x], 2);
    assert MemoryPage(b, 2, 1) == Page([x], 2);
  }
}

/** The map-backed repository: pointers in a map, copied on the way in and out. */
module MemoryRepo {
  import opened Core
  import opened Paging
  import opened Table

  /** A `*User`. */
  class UserObj {
    var id: Uuid
    var name: string
    var email: string
    var createdAt: Time
    var updatedAt: Time
    var deletedAt: Option<Time>

    function Value(): User
      reads this
    {
      User(id, name, email, createdAt, updatedAt, deletedAt)
    }

    constructor (u: User)
      ensures Value() == u
    {
      id, name, email := u.id, u.name, u.email;
      createdAt, updatedAt, deletedAt := u.createdAt, u.updatedAt, u.deletedAt;
    }

    constructor Copy(o: UserObj)
      ensures Value() == o.Value()
    {
      id, name, email := o.id, o.name, o.email;
      createdAt, updatedAt, deletedAt := o.createdAt, o.updatedAt, o.deletedAt;
    }
  }

  function Values(list: seq<UserObj>): (vs: seq<User>)
    reads list
    ensures |vs| == |list| && forall i :: 0 <= i < |list| ==> vs[i] == list[i].Value()
  {
    seq(|list|, i requires 0 <= i < |list| reads list => list[i].Value())
  }

  ghost function Shown(out: Outcome<UserObj>): set<UserObj> {
    if out.Page? then set o | o in out.items else {}
  }

  function OutcomeValues(out: Outcome<UserObj>): Outcome<User>
    reads if out.Page? then out.items else []
  {
    match out
    case Page(items, total) => Page(Values(items), total)
    case Panics => Panics
  }

  lemma InsertedRows(before: seq<User>, k: nat, v: User, after: seq<User>)
    requires k <= |before| && after == before[..k] + [v] + before[k..]
    ensures multiset(after) == multiset(before) + multiset{v}
  {
    assert before == before[..k] + before[k..];
  }

  /** Inserting behind every row that is not older keeps the order. */
  lemma InsertedInOrder(before: seq<User>, k: nat, v: User, after: seq<User>)
    requires k <= |before| && after == before[..k] + [v] + before[k..]
    requires Descending(before)
    requires forall j :: 0 <= j < k ==> before[j].createdAt >= v.createdAt
    requires k < |before| ==> before[k].createdAt <= v.createdAt
    ensures Descending(after)
  {
  }

  method InsertByCreation(sorted: seq<UserObj>, o: UserObj) returns (r: seq<UserObj>)
    requires Descending(Values(sorted))
    ensures forall x :: x in r ==> x in sorted || x == o
    ensures multiset(Values(r)) == multiset(Values(sorted)) + multiset{o.Value()}
    ensures Descending(Values(r))
  {
    var k := 0;
    while k < |sorted| && sorted[k].createdAt >= o.createdAt
      invariant 0 <= k <= |sorted|
      invariant forall j :: 0 <= j < k ==> sorted[j].createdAt >= o.createdAt
    {
      k := k + 1;
    }
    r := sorted[..k] + [o] + sorted[k..];
    ghost var before := Values(sorted);
    assert Values(r) == before[..k] + [o.Value()] + before[k..];
    InsertedRows(before, k, o.Value(), Values(r));
    InsertedInOrder(before, k, o.Value(), Values(r));
  }

  /** sort.Slice by CreatedAt.After; only "sorted" and "a permutation" is promised. */
  method SortByCreation(list: seq<UserObj>) returns (sorted: seq<UserObj>)
    ensures forall o :: o in sorted ==> o in list
    ensures multiset(Values(sorted)) == multiset(Values(list))
    ensures Descending(Values(sorted))
  {
    sorted := [];
    for i := 0 to |list|
      invariant forall o :: o in sorted ==> o in list
      invariant multiset(Values(sorted)) == multiset(Values(list)[..i])
      invariant Descending(Values(sorted))
    {
      sorted := InsertByCreation(sorted, list[i]);
      assert Values(list)[..i + 1] == Values(list)[..i] + [list[i].Value()];
    }
    assert Values(list)[..|list|] == Values(list);
  }

  /** The arithmetic and the slice expression at the end of List. */
  method TakePage(sorted: seq<UserObj>, page: int64, size: int64) returns (out: Outcome<UserObj>)
    ensures OutcomeValues(out) == MemoryPage(Values(sorted), page, size)
    ensures forall o :: o in Shown(out) ==> o in sorted
  {
    var total := |sorted|;
    var pageSize := size;
    if pageSize <= 0 {
      pageSize := 50;
    }
    var pageNo := page;
    if pageNo <= 0 {
      pageNo := 1;
    }
    var start := Wrap((pageNo - 1) * pageSize);
    if start >= total {
      out := Page([], total);
      assert Values([]) == [];
      return;
    }
    var end: int := Wrap(start + pageSize);
    if end > total {
      end := total;
    }
    if 0 <= start <= end {
      out := Page(sorted[start..end], total);
      assert Values(sorted[start..end]) == Values(sorted)[start..end];
      return;
    }
    return Panics;
  }

  class InMemoryUserRepo {
    var users: map<Uuid, UserObj>
    /** Every object a caller has passed in or received so far. */
    ghost var exposed: set<UserObj>

    ghost predicate Valid()
      reads this, users.Values
    {
      && (forall id :: id in users ==> users[id].id == id)
      && exposed !! users.Values
    }

    ghost function Rows(): Rows
      reads this`users, users.Values
    {
      map id | id in users :: users[id].Value()
    }

    lemma RowsWellKeyed()
      requires Valid()
      ensures WellKeyed(Rows())
    {
    }

    constructor ()
      ensures Valid() && Rows() == map[] && exposed == {}
    {
      users := map[];
      exposed := {};
    }

    /** Keep a private copy of the caller's object under its id. */
    method StoreCopy(u: UserObj)
      requires Valid() && u !in users.Values
      modifies this`users
      ensures Valid()
      ensures fresh(users.Values - old(users.Values))
      ensures Rows() == old(Rows())[u.id := u.Value()]
    {
      var cpy := new UserObj.Copy(u);
      users := users[u.id := cpy];
      assert users.Values <= old(users.Values) + {cpy};
    }

    method Create(u: UserObj) returns (r: Result<()>)
      requires Valid() && u !in users.Values
      modifies this
      ensures Valid() && exposed == old(exposed) + {u}
      ensures fresh(users.Values - old(users.Values))
      ensures match CreateRow(old(Rows()), u.Value())
              case Ok(t) => r == Ok(()) && Rows() == t
              case Err(e) => r == Err(e) && Rows() == old(Rows())
    {
      exposed := exposed + {u};
      if u.id in users {
        return Err(DuplicateId);
      }
      StoreCopy(u);
      return Ok(());
    }

    method Get(id: Uuid) returns (r: Result<UserObj>)
      requires Valid()
      modifies this`exposed
      ensures Valid()
      ensures exposed == old(exposed) + if r.Ok? then {r.value} else {}
      ensures Rows() == old(Rows())
      ensures r.Ok? ==> fresh(r.value)
      ensures match GetRow(Rows(), id)
              case Ok(u) => r.Ok? && r.value.Value() == u
              case Err(e) => r == Err(e)
    {
      if id !in users || users[id].deletedAt.Some? {
        return Err(NotFound);
      }
      var cpy := new UserObj.Copy(users[id]);
      exposed := exposed + {cpy};
      return Ok(cpy);
    }

    method Update(u: UserObj) returns (r: Result<()>)
      requires Valid() && u !in users.Values
      modifies this
      ensures Valid() && exposed == old(exposed) + {u}
      ensures fresh(users.Values - old(users.Values))
      ensures match UpdateRow(old(Rows()), u.Value())
              case Ok(t) => r == Ok(()) && Rows() == t
              case Err(e) => r == Err(e) && Rows() == old(Rows())
    {
      exposed := exposed + {u};
      if u.id !in users || users[u.id].deletedAt.Some? {
        return Err(NotFound);
      }
      StoreCopy(u);
      return Ok(());
    }

    method Delete(id: Uuid, now: Time) returns (r: Result<()>)
      requires Valid()
      modifies users.Values
      ensures Valid() && users == old(users) && exposed == old(exposed)
      ensures match DeleteRow(old(Rows()), id, now)
              case Ok(t) => r == Ok(()) && Rows() == t
              case Err(e) => r == Err(e) && Rows() == old(Rows())
    {
      if id !in users || users[id].deletedAt.Some? {
        return Err(NotFound);
      }
      users[id].deletedAt := Some(now);
      return Ok(());
    }

    /** The copies of the live rows, in whatever order the map walk meets them. */
    method CopyLive() returns (list: seq<UserObj>)
      requires Valid()
      ensures forall o :: o in list ==> fresh(o)
      ensures NoRepeats(Values(list)) && SameRows(Rows(), Values(list))
    {
      list := [];
      var todo := users.Keys;
      while todo != {}
        invariant todo <= users.Keys
        invariant forall o :: o in list ==> fresh(o)
        invariant NoRepeats(Values(list))
        invariant forall u :: u in Values(list) ==> u.id !in todo && IsLive(Rows(), u.id) && Rows()[u.id] == u
        invariant forall id :: id in users.Keys - todo && IsLive(Rows(), id) ==> Rows()[id] in Values(list)
      {
        var id :| id in todo;
        todo := todo - {id};
        ghost var before := Values(list);
        if users[id].deletedAt.None? {
          var cpy := new UserObj.Copy(users[id]);
          list := list + [cpy];
          assert Values(list) == before + [Rows()[id]];
        }
      }
    }

    method ListCopies(page: int64, size: int64) returns (out: Outcome<UserObj>)
      requires Valid()
      ensures fresh(Shown(out))
      ensures ListAllowed(Rows(), page, size, OutcomeValues(out))
    {
      var list := CopyLive();
      hide MemoryPage, ListAllowed, NoRepeats, SameRows, Descending;
      var sorted := SortByCreation(list);
      SortedIsAllowed(Rows(), Values(list), Values(sorted), page, size);
      out := TakePage(sorted, page, size);
    }

    method List(page: int64, size: int64) returns (out: Outcome<UserObj>)
      requires Valid()
      modifies this`exposed
      ensures Valid()
      ensures exposed == old(exposed) + Shown(out)
      ensures Rows() == old(Rows())
      ensures fresh(Shown(out))
      ensures ListAllowed(Rows(), page, size, OutcomeValues(out))
    {
      out := ListCopies(page, size);
      exposed := exposed + Shown(out);
    }

    /** A caller writing through an object it holds: nothing the repository stores changes. */
    method CallerWrite(o: UserObj, u: User)
      requires Valid() && o in exposed
      modifies o
      ensures Valid() && Rows() == old(Rows())
    {
      o.id, o.name, o.email := u.id, u.name, u.email;
      o.createdAt, o.updatedAt, o.deletedAt := u.createdAt, u.updatedAt, u.deletedAt;
    }
  }
}

/**
 * The caching decorator run one call at a time, over the two-tier cache that loses entries freely:
 * every call answers what the plain service could answer on the same table.
 */
module CachedService {
  import opened Core
  import opened Paging
  import opened Table
  import opened MemoryRepo
  import opened Service
  import opened Keys
  import opened Cache

  /** What JSON encoding keeps of a cached answer; decoding gives it back. */
  datatype Payload = UserJson(user: User) | ListJson(users: seq<User>, total: int)

  /** The value of an atomic uint64 after n increments from zero. */
  function Counter(n: nat): (c: nat)
    ensures n < TWO64 ==> c == n
    ensures c < TWO64
    ensures (c + 1) % TWO64 == (n + 1) % TWO64
  {
    n % TWO64
  }

  // ----- coherence, as predicates of the cache history and the table -----

  /** Every user entry is the current row of a live user. */
  ghost predicate UsersCoherent(last: map<string, Payload>, t: Rows) {
    forall id :: UserKey(id) in last ==> IsLive(t, id) && last[UserKey(id)] == UserJson(t[id])
  }

  ghost predicate ListEntryOk(t: Rows, page: int64, size: int64, v: Payload) {
    v.ListJson? && ListAllowed(t, page, size, Page(v.users, v.total))
  }

  /** Every value ever set under the current version is a correct page, and no later version was used. */
  ghost predicate ListsCoherent(ever: set<(string, Payload)>, ver: nat, t: Rows) {
    && (forall page: int64, size: int64, v :: (ListKey(ver, page, size), v) in ever ==> ListEntryOk(t, page, size, v))
    && (forall n: nat, page: int64, size: int64, v :: (ListKey(n, page, size), v) in ever ==> n <= ver)
  }

  lemma SetUserKeepsUsers(last: map<string, Payload>, t: Rows, id: Uuid, u: User)
    requires UsersCoherent(last, t) && u.Live()
    ensures UsersCoherent(last[UserKey(id) := UserJson(u)], t[id := u])
  {
    forall x | UserKey(x) in last[UserKey(id) := UserJson(u)]
      ensures IsLive(t[id := u], x) && last[UserKey(id) := UserJson(u)][UserKey(x)] == UserJson(t[id := u][x])
    {
      UserKeyInjective(x, id);
    }
  }

  lemma DropUserKeepsUsers(last: map<string, Payload>, t: Rows, id: Uuid, u: User)
    requires UsersCoherent(last, t)
    ensures UsersCoherent(last - {UserKey(id)}, t[id := u])
  {
  }

  /** Delete then Set, as Update does. */
  lemma ReplaceUserKeepsUsers(last: map<string, Payload>, t: Rows, id: Uuid, u: User)
    requires UsersCoherent(last, t) && u.Live()
    ensures UsersCoherent((last - {UserKey(id)})[UserKey(id) := UserJson(u)], t[id := u])
  {
    SetUserKeepsUsers(last, t, id, u);
    assert (last - {UserKey(id)})[UserKey(id) := UserJson(u)] == last[UserKey(id) := UserJson(u)];
  }

  lemma SetReadUserKeepsUsers(last: map<string, Payload>, t: Rows, id: Uuid)
    requires UsersCoherent(last, t) && IsLive(t, id)
    ensures UsersCoherent(last[UserKey(id) := UserJson(t[id])], t)
  {
    SetUserKeepsUsers(last, t, id, t[id]);
    assert t[id := t[id]] == t;
  }

  lemma SetListKeepsUsers(last: map<string, Payload>, t: Rows, ver: nat, page: int, size: int, v: Payload)
    requires UsersCoherent(last, t)
    ensures UsersCoherent(last[ListKey(ver, page, size) := v], t)
  {
    forall x | UserKey(x) in last[ListKey(ver, page, size) := v]
      ensures IsLive(t, x) && last[ListKey(ver, page, size) := v][UserKey(x)] == UserJson(t[x])
    {
      KeysDisjoint(x, ver, page, size);
    }
  }

  lemma SetUserKeepsLists(ever: set<(string, Payload)>, ver: nat, t: Rows, id: Uuid, v: Payload)
    requires ListsCoherent(ever, ver, t)
    ensures ListsCoherent(ever + {(UserKey(id), v)}, ver, t)
  {
    forall n: nat, page: int64, size: int64, w | (ListKey(n, page, size), w) in ever + {(UserKey(id), v)}
      ensures (ListKey(n, page, size), w) in ever
    {
      KeysDisjoint(id, n, page, size);
    }
  }

  lemma SetListKeepsLists(ever: set<(string, Payload)>, ver: nat, t: Rows, page: int64, size: int64, v: Payload)
    requires ListsCoherent(ever, ver, t) && ListEntryOk(t, page, size, v)
    ensures ListsCoherent(ever + {(ListKey(ver, page, size), v)}, ver, t)
  {
    forall n: nat, p: int64, s: int64, w | (ListKey(n, p, s), w) in ever + {(ListKey(ver, page, size), v)}
      ensures (ListKey(n, p, s), w) in ever || (n == ver && p == page && s == size && w == v)
    {
      ListKeyInjective(n, p, s, ver, page, size);
    }
  }

  /** After a bump no entry carries the new version, so any table change is harmless. */
  lemma BumpRenewsLists(ever: set<(string, Payload)>, ver: nat, t: Rows, t': Rows)
    requires ListsCoherent(ever, ver, t)
    ensures ListsCoherent(ever, ver + 1, t')
  {
  }

  lemma UserHit(last: map<string, Payload>, t: Rows, id: Uuid)
    requires UsersCoherent(last, t) && UserKey(id) in last
    ensures IsLive(t, id) && last[UserKey(id)] == UserJson(t[id])
  {
  }

  lemma ListHit(ever: set<(string, Payload)>, ver: nat, t: Rows, page: int64, size: int64, v: Payload)
    requires ListsCoherent(ever, ver, t) && (ListKey(ver, page, size), v) in ever
    ensures ListEntryOk(t, page, size, v)
  {
  }

  lemma BumpThenSetUserKeepsLists(ever: set<(string, Payload)>, ver: nat, t: Rows, t': Rows, id: Uuid, v: Payload)
    requires ListsCoherent(ever, ver, t)
    ensures ListsCoherent(ever + {(UserKey(id), v)}, ver + 1, t')
  {
    BumpRenewsLists(ever, ver, t, t');
    SetUserKeepsLists(ever, ver + 1, t', id, v);
  }

  /** Decoding allocates new users. */
  method DecodeAll(users: seq<User>) returns (objs: seq<UserObj>)
    ensures Values(objs) == users
    ensures forall o :: o in objs ==> fresh(o)
  {
    objs := [];
    for i := 0 to |users|
      invariant Values(objs) == users[..i]
      invariant forall o :: o in objs ==> fresh(o)
    {
      var o := new UserObj(users[i]);
      objs := objs + [o];
    }
  }

  // ----- calls and answers of a run -----

  datatype Call =
    | CreateCall(name: string, email: string, id: Uuid, now: Time)
    | GetCall(id: Uuid)
    | UpdateCall(id: Uuid, newName: Option<string>, newEmail: Option<string>, now: Time)
    | DeleteCall(id: Uuid, now: Time)
    | ListCall(page: int64, size: int64)

  datatype Answer =
    | UserAnswer(user: Result<User>)
    | Deleted(done: Result<()>)
    | Listing(out: Outcome<User>)
    | ListFailed(error: Error)

  /** What the plain, uncached service may answer to one call, and the table it leaves. */
  ghost predicate PlainStep(addressOk: string -> bool, t: Rows, call: Call, a: Answer, t': Rows) {
    match call
    case CreateCall(name, email, id, now) =>
      a.UserAnswer? && (a.user, t') == Service.CreateCall(addressOk, t, name, email, id, now)
    case GetCall(id) =>
      a == UserAnswer(GetRow(t, id)) && t' == t
    case UpdateCall(id, name, email, now) =>
      a.UserAnswer? && (a.user, t') == Service.UpdateCall(addressOk, t, id, name, email, now)
    case DeleteCall(id, now) =>
      a.Deleted? && (a.done, t') == Service.DeleteCall(t, id, now)
    case ListCall(page, size) =>
      a.Listing? && ListAllowed(t, page, size, a.out) && t' == t
  }

  // ----- the decorator -----

  class CachedUserService {
    const base: UserService
    const cache: Layered<Payload>
    /** An atomic uint64: it wraps. */
    var listVer: nat
    /** How many times the version was bumped. */
    ghost var writes: nat

    ghost predicate Valid()
      reads this, base.repo, base.repo.users.Values, cache
    {
      base.repo.Valid() && cache.Valid() && listVer == Counter(writes)
    }

    ghost function Rows(): Rows
      reads base.repo`users, base.repo.users.Values
    {
      base.repo.Rows()
    }

    /** User entries can be trusted: they agree with the table and no Redis write has been lost. */
    ghost predicate UsersTrusted()
      reads base.repo`users, base.repo.users.Values, cache`last, cache`redisFailed
    {
      !cache.redisFailed && UsersCoherent(cache.last, Rows())
    }

    /** List entries can be trusted: this needs nothing of Redis, only that the counter has not wrapped. */
    ghost predicate ListsTrusted()
      reads this`writes, base.repo`users, base.repo.users.Values, cache`everSet
    {
      writes < TWO64 && ListsCoherent(cache.everSet, writes, Rows())
    }

    constructor (base: UserService, cache: Layered<Payload>)
      requires base.repo.Valid() && cache.Valid()
      ensures Valid() && this.base == base && this.cache == cache
      ensures cache.everSet == {} && cache.last == map[] && !cache.redisFailed ==> UsersTrusted() && ListsTrusted()
    {
      this.base, this.cache := base, cache;
      listVer, writes := 0, 0;
    }

    method Bump()
      requires listVer == Counter(writes)
      modifies this`listVer, this`writes
      ensures listVer == Counter(writes) && writes == old(writes) + 1
    {
      listVer := (listVer + 1) % TWO64;
      writes := writes + 1;
    }

    method SetUser(o: UserObj, w: Weather)
      requires cache.Valid()
      modifies cache
      ensures cache.Valid()
      ensures cache.everSet == old(cache.everSet) + {(UserKey(o.id), UserJson(o.Value()))}
      ensures cache.last == old(cache.last)[UserKey(o.id) := UserJson(o.Value())]
      ensures cache.Now() == Store(cache.hasRedis, old(cache.Now()), UserKey(o.id), UserJson(o.Value()), w)
      ensures old(cache.redisFailed) ==> cache.redisFailed
    {
      cache.Set(UserKey(o.id), UserJson(o.Value()), w);
    }

    /** delUser, then the version bump: what Update and Delete do once the repository has changed. */
    method Invalidate(id: Uuid, w: Weather)
      requires Valid()
      modifies this, cache
      ensures Valid() && Rows() == old(Rows()) && writes == old(writes) + 1
      ensures cache.last == old(cache.last) - {UserKey(id)} && cache.everSet == old(cache.everSet)
      ensures cache.Now() == Drop(cache.hasRedis, old(cache.Now()), UserKey(id), w)
      ensures old(cache.redisFailed) ==> cache.redisFailed
    {
      hide Counter, InMemoryUserRepo.Rows, InMemoryUserRepo.Valid, Layered.Valid, Fetch, Store, Drop;
      cache.Delete(UserKey(id), w);
      Bump();
    }

    /** What Update does once the repository has changed: invalidate, then cache the new user. */
    method Refresh(o: UserObj, w: Weather, w': Weather)
      requires Valid()
      modifies this, cache
      ensures Valid() && Rows() == old(Rows()) && writes == old(writes) + 1
      ensures cache.last == old(cache.last)[UserKey(o.id) := UserJson(o.Value())]
      ensures cache.everSet == old(cache.everSet) + {(UserKey(o.id), UserJson(o.Value()))}
      ensures cache.Now() == Store(cache.hasRedis, Drop(cache.hasRedis, old(cache.Now()), UserKey(o.id), w),
                                   UserKey(o.id), UserJson(o.Value()), w')
      ensures old(cache.redisFailed) ==> cache.redisFailed
    {
      hide Counter, InMemoryUserRepo.Rows, InMemoryUserRepo.Valid, Layered.Valid, Fetch, Store, Drop;
      Invalidate(o.id, w);
      SetUser(o, w');
    }

    method Create(name: string, email: string, id: Uuid, now: Time, w: Weather) returns (r: Result<UserObj>)
      requires Valid()
      modifies this, base.repo, cache
      ensures Valid() && fresh(base.repo.users.Values - old(base.repo.users.Values))
      ensures (ResultValue(r), Rows()) == Service.CreateCall(base.addressOk, old(Rows()), name, email, id, now)
      ensures writes == old(writes) + if r.Ok? then 1 else 0
      ensures cache.last == if r.Ok? then old(cache.last)[UserKey(id) := UserJson(ResultValue(r).value)]
                            else old(cache.last)
      ensures cache.Now() == if r.Err? then old(cache.Now())
                             else Store(cache.hasRedis, old(cache.Now()), UserKey(id),
                                        UserJson(ResultValue(r).value), w)
      ensures (old(cache.redisFailed) ==> cache.redisFailed) && writes >= old(writes)
      ensures old(UsersTrusted()) && !cache.redisFailed ==> UsersTrusted()
      ensures old(ListsTrusted()) && writes < TWO64 ==> ListsTrusted()
    {
      hide UsersCoherent, ListsCoherent, Counter, InMemoryUserRepo.Rows, InMemoryUserRepo.Valid, Layered.Valid;
      hide Fetch, Store, Drop, Service.CreateCall;
      ghost var t := Rows();
      r := base.Create(name, email, id, now);
      ghost var t', answer := Rows(), ResultValue(r);
      CreateChangesOneRow(base.addressOk, t, name, email, id, now);
      if r.Err? {
        return;
      }
      Bump();
      SetUser(r.value, w);
      assert Rows() == t' && ResultValue(r) == answer;
      if old(UsersTrusted()) {
        SetUserKeepsUsers(old(cache.last), t, id, answer.value);
      }
      if old(ListsTrusted()) {
        BumpThenSetUserKeepsLists(old(cache.everSet), old(writes), t, t', id, UserJson(answer.value));
      }
    }

    method Get(id: Uuid, w: Weather, w': Weather) returns (r: Result<UserObj>)
      requires Valid()
      modifies base.repo`exposed, cache
      ensures Valid() && Rows() == old(Rows())
      ensures r.Ok? ==> fresh(r.value)
      ensures old(UsersTrusted()) && !cache.redisFailed ==> ResultValue(r) == GetRow(Rows(), id)
      ensures r.Ok? ==> (UserKey(id), UserJson(ResultValue(r).value)) in cache.everSet
      ensures r.Err? ==> cache.everSet == old(cache.everSet) && cache.last == old(cache.last)
      ensures var (hit, m) := Fetch(cache.hasRedis, old(cache.Now()), UserKey(id), w);
              if hit.Some? && hit.value.UserJson? then ResultValue(r) == Ok(hit.value.user) && cache.Now() == m
              else
                && ResultValue(r) == GetRow(Rows(), id)
                && cache.Now() == if r.Err? then m
                                  else Store(cache.hasRedis, m, UserKey(id), UserJson(ResultValue(r).value), w')
      ensures (old(cache.redisFailed) ==> cache.redisFailed) && writes >= old(writes)
      ensures old(UsersTrusted()) && !cache.redisFailed ==> UsersTrusted()
      ensures old(ListsTrusted()) ==> ListsTrusted()
    {
      hide UsersCoherent, ListsCoherent, Counter, InMemoryUserRepo.Rows, InMemoryUserRepo.Valid, Layered.Valid;
      hide Fetch, Store, Drop;
      var hit := cache.Get(UserKey(id), w);
      if hit.Some? && hit.value.UserJson? {
        var u := new UserObj(hit.value.user);
        if old(UsersTrusted()) {
          UserHit(cache.last, Rows(), id);
        }
        return Ok(u);
      }
      ghost var t := Rows();
      r := base.Get(id);
      ghost var answer := ResultValue(r);
      if r.Err? {
        return;
      }
      SetUser(r.value, w');
      assert Rows() == t && ResultValue(r) == answer;
      if old(UsersTrusted()) {
        SetReadUserKeepsUsers(old(cache.last), t, id);
      }
      if old(ListsTrusted()) {
        SetUserKeepsLists(old(cache.everSet), writes, t, id, UserJson(answer.value));
      }
    }

    method Update(id: Uuid, name: Option<string>, email: Option<string>, now: Time, w: Weather, w': Weather)
      returns (r: Result<UserObj>)
      requires Valid()
      modifies this, base.repo, cache
      ensures Valid() && fresh(base.repo.users.Values - old(base.repo.users.Values))
      ensures (ResultValue(r), Rows()) == Service.UpdateCall(base.addressOk, old(Rows()), id, name, email, now)
      ensures writes == old(writes) + if r.Ok? then 1 else 0
      ensures cache.last == if r.Ok? then old(cache.last)[UserKey(id) := UserJson(ResultValue(r).value)]
                            else old(cache.last)
      ensures cache.Now() == if r.Err? then old(cache.Now())
                             else Store(cache.hasRedis, Drop(cache.hasRedis, old(cache.Now()), UserKey(id), w),
                                        UserKey(id), UserJson(ResultValue(r).value), w')
      ensures (old(cache.redisFailed) ==> cache.redisFailed) && writes >= old(writes)
      ensures old(UsersTrusted()) && !cache.redisFailed ==> UsersTrusted()
      ensures old(ListsTrusted()) && writes < TWO64 ==> ListsTrusted()
    {
      hide UsersCoherent, ListsCoherent, Counter, InMemoryUserRepo.Rows, InMemoryUserRepo.Valid, Layered.Valid;
      hide Fetch, Store, Drop, Service.UpdateCall;
      base.repo.RowsWellKeyed();
      ghost var t := Rows();
      r := base.Update(id, name, email, now);
      ghost var t', answer := Rows(), ResultValue(r);
      UpdateChangesOneRow(base.addressOk, t, id, name, email, now);
      if r.Err? {
        return;
      }
      Refresh(r.value, w, w');
      assert Rows() == t' && ResultValue(r) == answer;
      if old(UsersTrusted()) {
        assert (old(cache.last) - {UserKey(id)})[UserKey(id) := UserJson(answer.value)]
            == old(cache.last)[UserKey(id) := UserJson(answer.value)];
        ReplaceUserKeepsUsers(old(cache.last), t, id, answer.value);
      }
      if old(ListsTrusted()) {
        BumpThenSetUserKeepsLists(old(cache.everSet), old(writes), t, t', id, UserJson(answer.value));
      }
    }

    method Delete(id: Uuid, now: Time, w: Weather) returns (r: Result<()>)
      requires Valid()
      modifies this, base.repo.users.Values, cache
      ensures Valid() && base.repo.users == old(base.repo.users)
      ensures (r, Rows()) == Service.DeleteCall(old(Rows()), id, now)
      ensures writes == old(writes) + if r.Ok? then 1 else 0
      ensures cache.last == if r.Ok? then old(cache.last) - {UserKey(id)} else old(cache.last)
      ensures cache.Now() == if r.Err? then old(cache.Now()) else Drop(cache.hasRedis, old(cache.Now()), UserKey(id), w)
      ensures (old(cache.redisFailed) ==> cache.redisFailed) && writes >= old(writes)
      ensures old(UsersTrusted()) && !cache.redisFailed ==> UsersTrusted()
      ensures old(ListsTrusted()) && writes < TWO64 ==> ListsTrusted()
    {
      hide UsersCoherent, ListsCoherent, Counter, InMemoryUserRepo.Rows, InMemoryUserRepo.Valid, Layered.Valid;
      hide Fetch, Store, Drop, Service.DeleteCall;
      ghost var t := Rows();
      r := base.Delete(id, now);
      ghost var t' := Rows();
      DeleteChangesOneRow(t, id, now);
      if r.Err? {
        return;
      }
      Invalidate(id, w);
      assert Rows() == t';
      if old(UsersTrusted()) {
        DropUserKeepsUsers(old(cache.last), t, id, t'[id]);
      }
      if old(ListsTrusted()) {
        BumpRenewsLists(old(cache.everSet), old(writes), t, t');
      }
    }

    method List(page: int64, size: int64, w: Weather, w': Weather) returns (out: Outcome<UserObj>)
      requires Valid()
      modifies base.repo`exposed, cache
      ensures Valid() && Rows() == old(Rows())
      ensures fresh(Shown(out))
      ensures old(ListsTrusted()) ==> ListAllowed(Rows(), page, size, OutcomeValues(out))
      ensures out.Page? ==>
                var shown := ListJson(OutcomeValues(out).items, OutcomeValues(out).total);
                (ListKey(listVer, page, size), shown) in cache.everSet
      ensures out.Panics? ==> cache.everSet == old(cache.everSet) && cache.last == old(cache.last)
      ensures var key := ListKey(listVer, page, size);
              var (hit, m) := Fetch(cache.hasRedis, old(cache.Now()), key, w);
              if hit.Some? && hit.value.ListJson? then
                OutcomeValues(out) == Page(hit.value.users, hit.value.total) && cache.Now() == m
              else
                && ListAllowed(Rows(), page, size, OutcomeValues(out))
                && cache.Now() == if out.Panics? then m
                                  else Store(cache.hasRedis, m, key,
                                             ListJson(OutcomeValues(out).items, OutcomeValues(out).total), w')
      ensures (old(cache.redisFailed) ==> cache.redisFailed) && writes >= old(writes)
      ensures old(UsersTrusted()) && !cache.redisFailed ==> UsersTrusted()
      ensures old(ListsTrusted()) ==> ListsTrusted()
    {
      hide UsersCoherent, ListsCoherent, Counter, InMemoryUserRepo.Rows, InMemoryUserRepo.Valid, Layered.Valid;
      hide Fetch, Store, Drop, ListAllowed;
      var key := ListKey(listVer, page, size);
      var hit := cache.Get(key, w);
      if hit.Some? && hit.value.ListJson? {
        var users := DecodeAll(hit.value.users);
        if old(ListsTrusted()) {
          ListHit(cache.everSet, writes, Rows(), page, size, hit.value);
        }
        return Page(users, hit.value.total);
      }
      ghost var t := Rows();
      out := base.List(page, size);
      if out.Panics? {
        return;
      }
      var payload := ListJson(Values(out.items), out.total);
      cache.Set(key, payload, w');
      assert Rows() == t;
      assert OutcomeValues(out) == Page(payload.users, payload.total);
      if old(UsersTrusted()) {
        SetListKeepsUsers(old(cache.last), t, listVer, page, size, payload);
      }
      if old(ListsTrusted()) {
        SetListKeepsLists(old(cache.everSet), writes, t, page, size, payload);
      }
    }

    // ----- whole runs -----

    method Do(call: Call) returns (a: Answer)
      requires Valid()
      modifies this, base.repo, base.repo.users.Values, cache
      ensures Valid() && fresh(base.repo.users.Values - old(base.repo.users.Values))
      ensures (old(cache.redisFailed) ==> cache.redisFailed) && writes >= old(writes)
      ensures old(ListsTrusted()) && writes < TWO64 ==> ListsTrusted()
      ensures old(UsersTrusted()) && !cache.redisFailed ==> UsersTrusted()
      ensures (call.ListCall? ==> old(ListsTrusted())) && (call.GetCall? ==> old(UsersTrusted()) && !cache.redisFailed)
              ==> PlainStep(base.addressOk, old(Rows()), call, a, Rows())
    {
      hide UsersCoherent, ListsCoherent, Counter, InMemoryUserRepo.Rows, InMemoryUserRepo.Valid, Layered.Valid;
      hide Fetch, Store, Drop;
      hide CreateRow, UpdateRow, DeleteRow, ListAllowed, NewUser, ChangedUser;
      var w: Weather := *;
      var w': Weather := *;
      match call {
        case CreateCall(name, email, id, now) =>
          var r := Create(name, email, id, now, w);
          a := UserAnswer(ResultValue(r));
        case GetCall(id) =>
          var r := Get(id, w, w');
          a := UserAnswer(ResultValue(r));
        case UpdateCall(id, name, email, now) =>
          var r := Update(id, name, email, now, w, w');
          a := UserAnswer(ResultValue(r));
        case DeleteCall(id, now) =>
          var r := Delete(id, now, w);
          a := Deleted(r);
        case ListCall(page, size) =>
          var out := List(page, size, w, w');
          a := Listing(OutcomeValues(out));
      }
    }

    /**
     * A run of any calls, with evictions between any two steps: `tables` is a run of the plain
     * service that gives the same answers. A failed Redis write can only spoil the answers to Get.
     */
    method Run(script: seq<Call>) returns (answers: seq<Answer>, ghost tables: seq<Rows>)
      requires Valid()
      modifies this, base.repo, base.repo.users.Values, cache
      ensures Valid() && |answers| == |script| && |tables| == |script| + 1
      ensures tables[0] == old(Rows()) && tables[|script|] == Rows()
      ensures old(ListsTrusted()) && writes < TWO64 ==>
                forall i :: 0 <= i < |script| && !script[i].GetCall? ==>
                  PlainStep(base.addressOk, tables[i], script[i], answers[i], tables[i + 1])
      ensures old(ListsTrusted()) && old(UsersTrusted()) && writes < TWO64 && !cache.redisFailed ==>
                forall i :: 0 <= i < |script| ==>
                  PlainStep(base.addressOk, tables[i], script[i], answers[i], tables[i + 1])
    {
      hide UsersCoherent, ListsCoherent, Counter, InMemoryUserRepo.Rows, InMemoryUserRepo.Valid, Layered.Valid;
      hide Fetch, Store, Drop, PlainStep;
      answers := [];
      tables := [Rows()];
      for n := 0 to |script|
        invariant Valid() && |answers| == n && |tables| == n + 1
        invariant fresh(base.repo.users.Values - old(base.repo.users.Values))
        invariant tables[0] == old(Rows()) && tables[n] == Rows()
        invariant (old(cache.redisFailed) ==> cache.redisFailed) && writes >= old(writes)
        invariant old(ListsTrusted()) && writes < TWO64 ==> ListsTrusted()
        invariant old(UsersTrusted()) && !cache.redisFailed ==> UsersTrusted()
        invariant old(ListsTrusted()) && writes < TWO64 ==>
                    forall i :: 0 <= i < n && !script[i].GetCall? ==>
                      PlainStep(base.addressOk, tables[i], script[i], answers[i], tables[i + 1])
        invariant old(ListsTrusted()) && old(UsersTrusted()) && writes < TWO64 && !cache.redisFailed ==>
                    forall i :: 0 <= i < n ==>
                      PlainStep(base.addressOk, tables[i], script[i], answers[i], tables[i + 1])
      {
        var a := Do(script[n]);
        answers := answers + [a];
        tables := tables + [Rows()];
      }
    }
  }
}

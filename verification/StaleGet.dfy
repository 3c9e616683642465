/**
 * Why a write must not overlap a read of its id: a Delete begun while a Get of a live id has not
 * finished storing can always be continued so that every call on the id returns, no Redis command
 * fails, and the deleted user is left in the cache.
 */
module StaleGet {
  import opened Core
  import opened Paging
  import opened Table
  import opened Service
  import opened CachedService
  import opened Protocol
  import opened UserCoherence

  /** An advance in which nothing fails; the id and the listing it carries do not matter here. */
  function Go(tid: nat): Action {
    Advance(tid, Choice(RawUuid(seq(16, _ => 0 as byte)), Page([], 0), false))
  }

  /** Evictions and advances without failures, and no new call. */
  predicate Calm(acts: seq<Action>) {
    forall a :: a in acts ==> a.Evict? || (a.Advance? && !a.c.fail)
  }

  /** Either tier holds the payload for the id. */
  predicate Holds(s: State, id: Uuid, p: Payload) {
    (UserK(id) in s.local && s.local[UserK(id)] == p) || (UserK(id) in s.redis && s.redis[UserK(id)] == p)
  }

  /** Only thread `x` moved, and the table did not. */
  ghost predicate Alone(s: State, t: State, x: nat) {
    && t.hist == s.hist && t.calls == s.calls
    && x in s.threads && x in t.threads && t.threads == s.threads[x := t.threads[x]]
  }

  // ----- one call at a time -----

  predicate Easy(th: Thread) {
    th.GetLocal? || th.GetRedis? || th.GetRepo? || th.Running?
  }

  function Rank(th: Thread): nat {
    match th
    case GetLocal(_) => 6
    case GetRedis(_) => 5
    case GetRepo(_) => 4
    case Running(todo, _, _) => |todo| + 1
    case _ => 0
  }

  lemma GoOnce(s: State, x: nat)
    requires |s.hist| > 0 && x in s.threads && Easy(s.threads[x])
    ensures Enabled(s, Go(x)) && Alone(s, Apply(s, Go(x)), x)
    ensures var th := Apply(s, Go(x)).threads[x];
            Rank(th) < Rank(s.threads[x]) && (Easy(th) || th.Returned?)
  {
  }

  lemma LeadsCons(s: State, a: Action, acts: seq<Action>, t: State)
    requires Enabled(s, a) && Leads(Apply(s, a), acts, t)
    ensures Leads(s, [a] + acts, t)
  {
    assert ([a] + acts)[1..] == acts;
  }

  /** A Get, or a call with only cache instructions left, can run to its end by itself. */
  lemma {:induction false} RunsOut(s: State, x: nat) returns (acts: seq<Action>, t: State)
    requires |s.hist| > 0 && x in s.threads && (Easy(s.threads[x]) || s.threads[x].Returned?)
    ensures Leads(s, acts, t) && Calm(acts) && Alone(s, t, x) && t.threads[x].Returned?
    decreases Rank(s.threads[x])
  {
    if s.threads[x].Returned? {
      assert s.threads == s.threads[x := s.threads[x]];
      return [], s;
    }
    GoOnce(s, x);
    hide Apply, Enabled;
    var rest, end := RunsOut(Apply(s, Go(x)), x);
    LeadsCons(s, Go(x), rest, end);
    return [Go(x)] + rest, end;
  }

  // ----- every other Get of the id -----

  ghost function Others(s: State, id: Uuid, g: nat, d: nat): set<nat> {
    set x | x in s.threads && x in s.calls && x != g && x != d && Subject(s.calls[x], s.threads[x]) == Some(id)
  }

  lemma {:induction false} OthersRunOut(s: State, id: Uuid, g: nat, d: nat) returns (acts: seq<Action>, t: State)
    requires |s.hist| > 0 && forall x :: x in Others(s, id, g, d) ==> Easy(s.threads[x])
    requires g in s.threads && d in s.threads
    ensures Leads(s, acts, t) && Calm(acts) && Others(t, id, g, d) == {}
    ensures t.hist == s.hist && t.calls == s.calls && t.threads.Keys == s.threads.Keys
    ensures t.threads[g] == s.threads[g] && t.threads[d] == s.threads[d]
    decreases |Others(s, id, g, d)|
  {
    if Others(s, id, g, d) == {} {
      return [], s;
    }
    var x :| x in Others(s, id, g, d);
    var first, m := RunsOut(s, x);
    OneFewer(s, m, id, g, d, x);
    var rest, end := OthersRunOut(m, id, g, d);
    LeadsThen(s, first, m, rest, end);
    return first + rest, end;
  }

  lemma OneFewer(s: State, m: State, id: Uuid, g: nat, d: nat, x: nat)
    requires x in Others(s, id, g, d) && Alone(s, m, x) && m.threads[x].Returned?
    ensures Others(m, id, g, d) == Others(s, id, g, d) - {x}
    ensures |Others(m, id, g, d)| < |Others(s, id, g, d)|
    ensures forall y :: y in Others(m, id, g, d) ==> m.threads[y] == s.threads[y]
  {
    assert Others(m, id, g, d) == Others(s, id, g, d) - {x};
  }

  // ----- the Get that goes stale -----

  /** The call is about to store the user in some tier. */
  predicate Storing(th: Thread, id: Uuid, u: User) {
    th.Running? && th.todo != [] && forall i :: i in th.todo ==> Stores(i, id, Some(u))
  }

  /** With nothing cached for the id, a Get reads the live row and comes to store it. */
  lemma {:induction false} ComesToStore(s: State, id: Uuid, g: nat) returns (acts: seq<Action>, t: State)
    requires |s.hist| > 0 && WellKeyed(s.Rows()) && IsLive(s.Rows(), id) && g in s.threads
    requires UserK(id) !in s.local && UserK(id) !in s.redis
    requires var th := s.threads[g]; (th.GetLocal? || th.GetRedis? || th.GetRepo?) && th.id == id
    ensures Leads(s, acts, t) && Calm(acts) && Alone(s, t, g) && Storing(t.threads[g], id, s.Rows()[id])
    decreases Rank(s.threads[g])
  {
    GoOnce(s, g);
    var m := Apply(s, Go(g));
    if s.threads[g].GetRepo? {
      assert Leads(m, [], m);
      LeadsCons(s, Go(g), [], m);
      return [Go(g)] + [], m;
    }
    var rest, end := ComesToStore(m, id, g);
    LeadsCons(s, Go(g), rest, end);
    return [Go(g)] + rest, end;
  }

  /** Whatever is cached, it can be evicted first. */
  lemma ReachesStore(s: State, id: Uuid, g: nat) returns (acts: seq<Action>, t: State)
    requires |s.hist| > 0 && WellKeyed(s.Rows()) && IsLive(s.Rows(), id) && g in s.threads
    requires var th := s.threads[g];
             Storing(th, id, s.Rows()[id]) || ((th.GetLocal? || th.GetRedis? || th.GetRepo?) && th.id == id)
    ensures Leads(s, acts, t) && Calm(acts) && Alone(s, t, g) && Storing(t.threads[g], id, s.Rows()[id])
  {
    if s.threads[g].Running? {
      assert s.threads == s.threads[g := s.threads[g]];
      return [], s;
    }
    var evict := Evict({UserK(id)}, {UserK(id)});
    var rest, end := ComesToStore(Apply(s, evict), id, g);
    LeadsCons(s, evict, rest, end);
    return [evict] + rest, end;
  }

  /** Once it is storing, the user ends up cached whatever else is there. */
  lemma {:induction false} StoresAtLast(s: State, id: Uuid, g: nat, u: User) returns (acts: seq<Action>, t: State)
    requires |s.hist| > 0 && g in s.threads && s.threads[g].Running?
    requires forall i :: i in s.threads[g].todo ==> Stores(i, id, Some(u))
    requires s.threads[g].todo == [] ==> Holds(s, id, UserJson(u))
    ensures Leads(s, acts, t) && Calm(acts) && Alone(s, t, g) && t.threads[g].Returned?
    ensures Holds(t, id, UserJson(u))
    decreases Rank(s.threads[g])
  {
    GoOnce(s, g);
    var m := Apply(s, Go(g));
    if s.threads[g].todo == [] {
      assert Leads(m, [], m);
      LeadsCons(s, Go(g), [], m);
      return [Go(g)] + [], m;
    }
    assert Stores(s.threads[g].todo[0], id, Some(u)) && Holds(m, id, UserJson(u));
    assert forall i :: i in m.threads[g].todo ==> i in s.threads[g].todo;
    hide Apply, Enabled, Holds, Stores;
    var rest, end := StoresAtLast(m, id, g, u);
    LeadsCons(s, Go(g), rest, end);
    return [Go(g)] + rest, end;
  }

  // ----- the Delete -----

  lemma Deletes(s: State, id: Uuid, d: nat) returns (acts: seq<Action>, t: State)
    requires |s.hist| > 0 && IsLive(s.Rows(), id) && d in s.threads && s.threads[d] == DeleteRepo(id)
    ensures Leads(s, acts, t) && Calm(acts)
    ensures |t.hist| > 0 && IsTombstone(t.Rows(), id) && t.calls == s.calls
    ensures d in t.threads && t.threads[d].Returned? && t.threads == s.threads[d := t.threads[d]]
  {
    var m := Apply(s, Go(d));
    assert Enabled(s, Go(d)) && IsTombstone(m.Rows(), id) && m.threads[d].Running?;
    assert m.calls == s.calls && m.threads == s.threads[d := m.threads[d]];
    hide Apply, Enabled;
    var rest, end := RunsOut(m, d);
    LeadsCons(s, Go(d), rest, end);
    return [Go(d)] + rest, end;
  }

  // ----- together -----

  /** First every other Get returns, and the one in question comes to store. */
  lemma PoisedToStore(s: State, id: Uuid, g: nat, d: nat) returns (acts: seq<Action>, t: State)
    requires |s.hist| > 0 && WellKeyed(s.Rows()) && IsLive(s.Rows(), id)
    requires g in s.threads && d in s.threads && g != d && s.threads[d] == DeleteRepo(id)
    requires forall x :: x in Others(s, id, g, d) ==> Easy(s.threads[x])
    requires var th := s.threads[g];
             Storing(th, id, s.Rows()[id]) || ((th.GetLocal? || th.GetRedis? || th.GetRepo?) && th.id == id)
    ensures Leads(s, acts, t) && Calm(acts)
    ensures |t.hist| > 0 && t.Rows() == s.Rows() && Others(t, id, g, d) == {}
    ensures g in t.threads && d in t.threads && t.threads[d] == DeleteRepo(id)
    ensures Storing(t.threads[g], id, s.Rows()[id])
  {
    hide Leads, Calm, Storing, Subject;
    var a, m := OthersRunOut(s, id, g, d);
    SameTable(s, m, id);
    var b, end := ReachesStore(m, id, g);
    SameTable(m, end, id);
    assert Others(end, id, g, d) == Others(m, id, g, d);
    TwoLegs(s, a, m, b, end);
    return a + b, end;
  }

  /** Then the Delete runs to its end, and after it the store. */
  lemma EndsStale(s: State, id: Uuid, g: nat, d: nat, u: User) returns (acts: seq<Action>, t: State)
    requires |s.hist| > 0 && IsLive(s.Rows(), id) && Others(s, id, g, d) == {}
    requires g in s.threads && d in s.threads && g != d && s.threads[d] == DeleteRepo(id)
    requires Storing(s.threads[g], id, u)
    ensures Leads(s, acts, t) && Calm(acts)
    ensures |t.hist| > 0 && !Busy(t, id) && IsTombstone(t.Rows(), id) && Holds(t, id, UserJson(u))
  {
    hide Leads, Calm, Subject, Stores, Holds, IsTombstone;
    var a, m := Deletes(s, id, d);
    var b, end := StoresAtLast(m, id, g, u);
    NobodyLeft(s, m, end, id, g, d);
    TwoLegs(s, a, m, b, end);
    return a + b, end;
  }

  /**
   * In every state the discipline can lead to, a Delete begun while a Get of the same live id has not
   * finished storing has a continuation, with no new call and no failure, after which no call on the id
   * is in flight, the row is a tombstone, and the deleted user is still cached.
   */
  lemma DeleteOverGetGoesStale(s: State, id: Uuid, g: nat, d: nat) returns (acts: seq<Action>, end: State)
    requires Inv(s) && IsLive(s.Rows(), id) && d !in s.threads
    requires g in s.threads && s.calls[g].request == Get(id)
    requires !s.threads[g].Returned? && (s.threads[g].Running? ==> s.threads[g].todo != [])
    ensures Leads(s, [Begin(d, Delete(id))] + acts, end) && Calm(acts)
    ensures |end.hist| > 0 && !Busy(end, id) && IsTombstone(end.Rows(), id)
    ensures Holds(end, id, UserJson(s.Rows()[id]))
  {
    var s0 := Apply(s, Begin(d, Delete(id)));
    GetsOnly(s, id, g, d);
    SameTable(s, s0, id);
    hide *;
    var a, m := PoisedToStore(s0, id, g, d);
    var b, t := EndsStale(m, id, g, d, s.Rows()[id]);
    TwoLegs(s0, a, m, b, t);
    LeadsCons(s, Begin(d, Delete(id)), a + b, t);
    return a + b, t;
  }

  /** What the invariant says of the calls in flight on an id that is being read. */
  lemma GetsOnly(s: State, id: Uuid, g: nat, d: nat)
    requires Inv(s) && IsLive(s.Rows(), id) && d !in s.threads
    requires g in s.threads && s.calls[g].request == Get(id)
    requires !s.threads[g].Returned? && (s.threads[g].Running? ==> s.threads[g].todo != [])
    ensures var s0 := Apply(s, Begin(d, Delete(id)));
            && Enabled(s, Begin(d, Delete(id)))
            && s0.hist == s.hist && WellKeyed(s0.Rows())
            && g in s0.threads && d in s0.threads && g != d && s0.threads[d] == DeleteRepo(id)
            && s0.threads[g] == s.threads[g] && s0.threads.Keys == s0.calls.Keys
            && (forall x :: x in Others(s0, id, g, d) ==> Easy(s0.threads[x]))
            && (var th := s0.threads[g];
                Storing(th, id, s.Rows()[id]) || ((th.GetLocal? || th.GetRedis? || th.GetRepo?) && th.id == id))
  {
    var s0 := Apply(s, Begin(d, Delete(id)));
    Facts(s, g);
    assert Subject(s.calls[g], s.threads[g]) == Some(id);
    forall x | x in Others(s0, id, g, d) ensures Easy(s0.threads[x]) {
      assert Shared(s, x, g);
      Facts(s, x);
    }
  }

  lemma SameTable(s: State, t: State, id: Uuid)
    requires |s.hist| > 0 && t.hist == s.hist
    ensures |t.hist| > 0 && t.Rows() == s.Rows()
    ensures WellKeyed(s.Rows()) ==> WellKeyed(t.Rows())
    ensures IsLive(s.Rows(), id) ==> IsLive(t.Rows(), id)
  {
  }

  lemma TwoLegs(s: State, a: seq<Action>, m: State, b: seq<Action>, t: State)
    requires Leads(s, a, m) && Leads(m, b, t) && Calm(a) && Calm(b)
    ensures Leads(s, a + b, t) && Calm(a + b)
  {
    LeadsThen(s, a, m, b, t);
  }

  /** With the others, the Delete and the Get all returned, no call on the id is left. */
  lemma NobodyLeft(s: State, m: State, end: State, id: Uuid, g: nat, d: nat)
    requires Others(s, id, g, d) == {} && m.calls == s.calls && Alone(m, end, g) && end.threads[g].Returned?
    requires d in m.threads && m.threads == s.threads[d := m.threads[d]] && m.threads[d].Returned?
    requires |m.hist| > 0 && IsTombstone(m.Rows(), id)
    ensures |end.hist| > 0 && IsTombstone(end.Rows(), id) && !Busy(end, id)
  {
    forall x | x in end.threads && x in end.calls
      ensures Subject(end.calls[x], end.threads[x]) != Some(id)
    {
      if x != g && x != d {
        assert x !in Others(s, id, g, d);
      }
    }
  }
}

/**
 * What the concurrent protocol keeps in the cache: in every run, disciplined or not, only users that were
 * once a committed live row under their own id; and whatever a call reads is there for the next call.
 */
module CacheContents {
  import opened Core
  import opened Paging
  import opened Table
  import opened Service
  import opened CachedService
  import opened Protocol
  import opened UserCoherence
  import opened Replies
  import DataInvariant

  // ----- nothing is made up -----

  /** `u` was the live row of `id` in some committed table, or was cached under `id` when the process started. */
  ghost predicate Known(start: State, hist: seq<Snapshot>, id: Uuid, u: User) {
    CachedAt(start, id, u) || exists k :: 0 <= k < |hist| && IsLive(hist[k].rows, id) && hist[k].rows[id] == u
  }

  ghost predicate EntryKnown(start: State, hist: seq<Snapshot>, k: Key, v: Payload) {
    k.UserK? && v.UserJson? ==> Known(start, hist, k.id, v.user)
  }

  ghost predicate TierKnown(start: State, hist: seq<Snapshot>, m: map<Key, Payload>) {
    forall k :: k in m ==> EntryKnown(start, hist, k, m[k])
  }

  ghost predicate TodoKnown(start: State, hist: seq<Snapshot>, todo: seq<Instr>) {
    forall i :: i in todo ==>
      match i
      case LocalSet(k, v) => EntryKnown(start, hist, k, v)
      case RedisSet(k, v) => EntryKnown(start, hist, k, v)
      case _ => true
  }

  ghost predicate Inv(start: State, s: State) {
    && |s.hist| > 0
    && TierKnown(start, s.hist, s.local) && TierKnown(start, s.hist, s.redis)
    && forall x :: x in s.threads && s.threads[x].Running? ==> TodoKnown(start, s.hist, s.threads[x].todo)
  }

  lemma KnownLasts(start: State, s: State, hist: seq<Snapshot>)
    requires Inv(start, s) && s.hist <= hist
    ensures TierKnown(start, hist, s.local) && TierKnown(start, hist, s.redis)
    ensures forall x :: x in s.threads && s.threads[x].Running? ==> TodoKnown(start, hist, s.threads[x].todo)
  {
    hide CachedAt;
    assert forall id, u :: Known(start, s.hist, id, u) ==> Known(start, hist, id, u);
    hide Known;
  }

  /** The instructions that store or drop a user whose row is in the last table. */
  lemma SetUserKnown(start: State, hist: seq<Snapshot>, u: User, pre: seq<Instr>)
    requires |hist| > 0 && IsLive(hist[|hist| - 1].rows, u.id) && hist[|hist| - 1].rows[u.id] == u
    requires pre in {[], [Bump], DelUserInstrs(u.id) + [Bump]}
    ensures TodoKnown(start, hist, pre + SetUserInstrs(u))
  {
    assert Known(start, hist, u.id, u);
    hide Known;
  }

  /** What a step leaves: histories grow, tiers hold what they held, and the thread's new entries are known. */
  lemma StepSources(start: State, s: State, x: nat, c: Choice)
    requires Inv(start, s) && Enabled(s, Advance(x, c)) && WellKeyed(s.Rows())
    requires var th := s.threads[x]; th.CreateRepo? || th.UpdateRepo? ==> th.user.Live()
    ensures Inv(start, Step(s, x, c))
  {
    var th := s.threads[x];
    StepMovesOnly(s, x, c);
    if th.CreateRepo? || th.UpdateRepo? || th.DeleteRepo? {
      WriteSources(start, s, x, c);
    } else if th.Running? {
      RunSources(start, s, x, c);
    } else {
      ReadSources(start, s, x, c);
    }
  }

  lemma WriteSources(start: State, s: State, x: nat, c: Choice)
    requires Inv(start, s) && x in s.threads
    requires var th := s.threads[x];
      th.DeleteRepo? || ((th.CreateRepo? || th.UpdateRepo?) && th.user.Live())
    ensures Inv(start, Step(s, x, c))
  {
    var th, s' := s.threads[x], Step(s, x, c);
    StepMovesOnly(s, x, c);
    KnownLasts(start, s, s'.hist);
    if th.CreateRepo? {
      CreateSources(start, s, x, c);
    } else if th.UpdateRepo? {
      UpdateSources(start, s, x, c);
    } else {
      DeleteSources(start, s, x, c);
    }
    hide Step, TierKnown, TodoKnown;
  }

  /** The tiers are as they were, and the thread's instructions are known by the tables of the state it leaves. */
  ghost predicate Commits(start: State, s: State, s': State, x: nat) {
    && s'.local == s.local && s'.redis == s.redis && x in s'.threads
    && (s'.threads[x].Running? ==> TodoKnown(start, s'.hist, s'.threads[x].todo))
  }

  lemma CreateSources(start: State, s: State, x: nat, c: Choice)
    requires |s.hist| > 0 && x in s.threads && s.threads[x].CreateRepo? && s.threads[x].user.Live()
    ensures Commits(start, s, CreateStep(s, x, c), x)
  {
    var s' := CreateStep(s, x, c);
    if s'.threads[x].Running? {
      SetUserKnown(start, s'.hist, s.threads[x].user, [Bump]);
    }
    hide TodoKnown;
  }

  lemma UpdateSources(start: State, s: State, x: nat, c: Choice)
    requires |s.hist| > 0 && x in s.threads && s.threads[x].UpdateRepo? && s.threads[x].user.Live()
    ensures Commits(start, s, UpdateStep(s, x, c), x)
  {
    var s', u := UpdateStep(s, x, c), s.threads[x].user;
    if s'.threads[x].Running? {
      SetUserKnown(start, s'.hist, u, DelUserInstrs(u.id) + [Bump]);
    }
    hide TodoKnown;
  }

  lemma DeleteSources(start: State, s: State, x: nat, c: Choice)
    requires |s.hist| > 0 && x in s.threads && s.threads[x].DeleteRepo?
    ensures Commits(start, s, DeleteStep(s, x, c), x)
  {
  }

  lemma ReadSources(start: State, s: State, x: nat, c: Choice)
    requires Inv(start, s) && x in s.threads && !s.threads[x].Returned? && WellKeyed(s.Rows())
    requires var th := s.threads[x]; !(th.CreateRepo? || th.UpdateRepo? || th.DeleteRepo? || th.Running?)
    ensures Inv(start, Step(s, x, c))
  {
    var th := s.threads[x];
    StepMovesOnly(s, x, c);
    if th.GetLocal? || th.GetRedis? || th.GetRepo? {
      GetSources(start, s, x, c);
    } else if th.CreateStart? || th.UpdateRead? || th.UpdateEdit? {
      EarlySources(s, x, c);
    } else {
      ListSources(start, s, x, c);
    }
    hide Step, TierKnown, TodoKnown;
  }

  /** The three stores are as they were, and the thread's instructions are known. */
  ghost predicate Reads(start: State, s: State, s': State, x: nat) {
    && s'.hist == s.hist && s'.local == s.local && s'.redis == s.redis && x in s'.threads
    && (s'.threads[x].Running? ==> TodoKnown(start, s.hist, s'.threads[x].todo))
  }

  lemma GetSources(start: State, s: State, x: nat, c: Choice)
    requires Inv(start, s) && x in s.threads && WellKeyed(s.Rows())
    requires var th := s.threads[x]; th.GetLocal? || th.GetRedis? || th.GetRepo?
    ensures Reads(start, s, GetStep(s, x, c), x)
  {
    var id := s.threads[x].id;
    if s.threads[x].GetRepo? && IsLive(s.Rows(), id) {
      SetUserKnown(start, s.hist, s.Rows()[id], []);
      assert [] + SetUserInstrs(s.Rows()[id]) == SetUserInstrs(s.Rows()[id]);
    }
    hide Known;
  }

  lemma ListSources(start: State, s: State, x: nat, c: Choice)
    requires Inv(start, s) && x in s.threads
    requires var th := s.threads[x]; th.ListStart? || th.ListLocal? || th.ListRedis? || th.ListRepo?
    ensures Reads(start, s, ListStep(s, x, c), x)
  {
    hide Known, TierKnown;
  }

  /** Stages that leave no cache instruction. */
  lemma EarlySources(s: State, x: nat, c: Choice)
    requires |s.hist| > 0 && x in s.threads
    requires var th := s.threads[x]; th.CreateStart? || th.UpdateRead? || th.UpdateEdit?
    ensures var s' := Step(s, x, c);
      s'.hist == s.hist && s'.local == s.local && s'.redis == s.redis && x in s'.threads && !s'.threads[x].Running?
  {
    hide NewUser, ChangedUser, GetRow, GetStep, ListStep, DeleteStep, RunStep;
  }

  lemma RunSources(start: State, s: State, x: nat, c: Choice)
    requires Inv(start, s) && x in s.threads && s.threads[x].Running?
    ensures Inv(start, RunStep(s, x, c))
  {
    var todo, s' := s.threads[x].todo, RunStep(s, x, c);
    assert s'.hist == s.hist && forall y :: y in s.threads && y != x ==> s'.threads[y] == s.threads[y];
    if todo != [] {
      assert todo[0] in todo && forall i :: i in todo[1..] ==> i in todo;
      InstrKnown(start, s.hist, todo, todo[0]);
      hide TodoKnown, EntryKnown;
      assert s'.threads[x].todo == todo[1..];
      FewerKnown(start, s.hist, todo, todo[1..]);
    }
    hide Known, EntryKnown, TodoKnown;
  }

  lemma InstrKnown(start: State, hist: seq<Snapshot>, todo: seq<Instr>, i: Instr)
    requires TodoKnown(start, hist, todo) && i in todo
    ensures i.LocalSet? || i.RedisSet? ==> EntryKnown(start, hist, i.key, i.val)
  {
  }

  lemma FewerKnown(start: State, hist: seq<Snapshot>, todo: seq<Instr>, rest: seq<Instr>)
    requires TodoKnown(start, hist, todo) && forall i :: i in rest ==> i in todo
    ensures TodoKnown(start, hist, rest)
  {
    hide EntryKnown;
  }

  lemma StepKeeps(start: State, s: State, a: Action)
    requires Inv(start, s) && Enabled(s, a) && WellKeyed(s.Rows())
    requires a.Advance? ==>
      var th := s.threads[a.tid]; th.CreateRepo? || th.UpdateRepo? ==> th.user.Live()
    ensures Inv(start, Apply(s, a))
  {
    if a.Advance? {
      StepSources(start, s, a.tid, a.c);
    }
    hide Step, Known, EntryKnown, TodoKnown;
  }

  lemma {:induction false} RunKeeps(states: seq<State>, acts: seq<Action>, n: nat)
    requires IsRun(states, acts) && Init(states[0]) && n <= |acts|
    ensures Inv(states[0], states[n])
  {
    if n > 0 {
      RunKeeps(states, acts, n - 1);
      assert Follows(states, acts, n - 1);
      hide Inv, Init, Apply;
      if acts[n - 1].Advance? {
        WritersHoldLiveUsers(states, acts, n - 1, acts[n - 1].tid);
      } else {
        TablesAreWellKeyed(states, acts, n - 1);
      }
      StepKeeps(states[0], states[n - 1], acts[n - 1]);
    }
  }

  lemma WritersHoldLiveUsers(states: seq<State>, acts: seq<Action>, n: nat, tid: nat)
    requires IsRun(states, acts) && Init(states[0]) && n <= |acts| && tid in states[n].threads
    ensures |states[n].hist| > 0 && WellKeyed(states[n].Rows())
    ensures var th := states[n].threads[tid]; th.CreateRepo? || th.UpdateRepo? ==> th.user.Live()
  {
    var f := DataInvariant.First(|LiveIds(states[0].hist[0].rows)|, false);
    DataInvariant.RunKeeps(f, states, acts, n);
    var s := states[n];
    assert DataInvariant.SnapshotOk(f, s.addressOk, s.clock, s.hist[s.Now()]);
    assert DataInvariant.ThreadOk(f, s.addressOk, s.clock, s.Rows(), s.threads[tid]);
  }

  /**
   * No call invents or mixes up a user: whatever a Get answers was, under the id asked for, a live row of
   * some table committed by the moment the call read it, unless it was cached when the process started.
   */
  lemma GetAnswersAreRows(states: seq<State>, acts: seq<Action>, n: nat, tid: nat, id: Uuid, u: User)
    returns (b: nat, i: nat)
    requires IsRun(states, acts) && Init(states[0]) && n <= |acts|
    requires tid in states[n].threads && states[n].threads[tid] == Returned(UserReply(u))
    requires tid in states[n].calls && states[n].calls[tid].request == Get(id)
    ensures BeganAt(acts, b, n, tid, Get(id)) && Moved(acts, b, i, n, tid)
    ensures i < |states| && Known(states[0], states[i].hist, id, u)
  {
    b := AnswersAreAccountedFor(states, acts, n, tid);
    i :| Moved(acts, b, i, n, tid) && (LiveAt(states[i], id, u) || CachedAt(states[i], id, u));
    RunKeeps(states, acts, i);
    hide Inv, Means;
    InvKnows(states[0], states[i], id, u);
  }

  lemma InvKnows(start: State, s: State, id: Uuid, u: User)
    requires Inv(start, s) && (LiveAt(s, id, u) || CachedAt(s, id, u))
    ensures Known(start, s.hist, id, u)
  {
  }

  // ----- what was read or written is there for the next call -----

  /** n more steps of one call, in which nothing fails and nothing is lost. */
  function Alone(s: State, x: nat, c: Choice, n: nat): State
    requires |s.hist| > 0 && x in s.threads
    decreases n
  {
    if n == 0 then s
    else
      var s' := Step(s, x, c);
      if |s'.hist| > 0 && x in s'.threads then Alone(s', x, c, n - 1) else s'
  }

  lemma NextEntry(s: State, s': State, todo: seq<Instr>, id: Uuid)
    requires |s.hist| > 0 && todo != [] && Touches(todo[0], id)
    requires var t := Exec(s, todo[0], false); s'.hist == t.hist && s'.local == t.local && s'.redis == t.redis
    ensures s'.hist == s.hist
    ensures LocalAfter(todo[1..], id, Lookup(s'.local, UserK(id))) == LocalAfter(todo, id, Lookup(s.local, UserK(id)))
    ensures RedisAfter(todo[1..], id, Lookup(s'.redis, UserK(id))) == RedisAfter(todo, id, Lookup(s.redis, UserK(id)))
  {
  }

  /** A call with only cache instructions left returns its reply and leaves in both tiers what they say. */
  lemma {:induction false} InstructionsRun(s: State, x: nat, c: Choice, id: Uuid)
    requires |s.hist| > 0 && x in s.threads && s.threads[x].Running? && !c.fail
    requires forall i :: i in s.threads[x].todo ==> Touches(i, id)
    ensures var th := s.threads[x]; var t := Alone(s, x, c, |th.todo| + 1);
      && t.hist == s.hist && t.threads == s.threads[x := Returned(th.reply)]
      && Lookup(t.local, UserK(id)) == LocalAfter(th.todo, id, Lookup(s.local, UserK(id)))
      && Lookup(t.redis, UserK(id)) == RedisAfter(th.todo, id, Lookup(s.redis, UserK(id)))
    decreases |s.threads[x].todo|
  {
    var th, s' := s.threads[x], Step(s, x, c);
    if th.todo == [] {
      assert Alone(s', x, c, 0) == s';
    } else {
      OneRuns(s, x, c);
      NextEntry(s, s', th.todo, id);
      assert Alone(s, x, c, |th.todo| + 1) == Alone(s', x, c, |th.todo|);
      hide Step, Exec, Alone, LocalAfter, RedisAfter, Touches;
      InstructionsRun(s', x, c, id);
    }
  }

  lemma OneRuns(s: State, x: nat, c: Choice)
    requires |s.hist| > 0 && x in s.threads && s.threads[x].Running? && !c.fail && s.threads[x].todo != []
    ensures var th, s' := s.threads[x], Step(s, x, c); var t := Exec(s, th.todo[0], false);
      && s'.hist == t.hist && s'.local == t.local && s'.redis == t.redis && |s'.hist| > 0
      && s'.threads == s.threads[x := Running(th.todo[1..], th.reply, th.mutation)]
      && s'.threads[x := Returned(th.reply)] == s.threads[x := Returned(th.reply)]
      && forall i :: i in th.todo[1..] ==> i in th.todo
  {
    var th, s' := s.threads[x], Step(s, x, c);
    assert s' == RunStep(s, x, c) by { hide RunStep; }
    hide Step;
    assert s'.threads == s.threads[x := Running(th.todo[1..], th.reply, th.mutation)];
    hide RunStep;
  }

  /** Once a Create, Update or Get has its user, running on by itself it leaves exactly that user in both tiers. */
  lemma UsersAreCached(s: State, x: nat, c: Choice, u: User)
    requires |s.hist| > 0 && WellKeyed(s.Rows()) && x in s.threads && !c.fail && u.Live()
    requires var th := s.threads[x]; th.CreateRepo? || th.UpdateRepo? || th.GetRepo?
    requires var th' := Step(s, x, c).threads[x]; th'.Running? && th'.reply == UserReply(u)
    ensures var s' := Step(s, x, c);
      |s'.hist| > 0 &&
      var t := Alone(s', x, c, |s'.threads[x].todo| + 1);
      && t.threads == s'.threads[x := Returned(UserReply(u))]
      && Lookup(t.local, UserK(u.id)) == Some(UserJson(u)) && Lookup(t.redis, UserK(u.id)) == Some(UserJson(u))
  {
    var s' := Step(s, x, c);
    var todo := s'.threads[x].todo;
    var pre := if s.threads[x].GetRepo? then []
               else if s.threads[x].CreateRepo? then [Bump] else DelUserInstrs(u.id) + [Bump];
    assert todo == pre + SetUserInstrs(u);
    InstructionsRun(s', x, c, u.id);
    hide Step, Alone, LocalAfter, RedisAfter;
    WriteThenSetSettles(pre, u, View(Some(u), Lookup(s'.local, UserK(u.id)), Lookup(s'.redis, UserK(u.id))));
  }

  /** Once a Delete has committed, running on by itself it leaves the id in neither tier. */
  lemma DeletedAreDropped(s: State, x: nat, c: Choice)
    requires |s.hist| > 0 && x in s.threads && s.threads[x].DeleteRepo? && !c.fail
    requires Step(s, x, c).threads[x].Running?
    ensures var s' := Step(s, x, c);
      |s'.hist| > 0 &&
      var t := Alone(s', x, c, |s'.threads[x].todo| + 1);
      && t.threads == s'.threads[x := Returned(DeletedReply)]
      && UserK(s.threads[x].id) !in t.local && UserK(s.threads[x].id) !in t.redis
  {
    var id, s' := s.threads[x].id, Step(s, x, c);
    assert s'.threads[x].todo == DelUserInstrs(id) + [Bump] && s'.threads[x].reply == DeletedReply;
    InstructionsRun(s', x, c, id);
    hide Step, Alone, LocalAfter, RedisAfter;
    DeleteSettles(id, View(None, Lookup(s'.local, UserK(id)), Lookup(s'.redis, UserK(id))));
  }

  /** A page that was read is stored under its version, page and size in both tiers. */
  lemma PagesAreCached(s: State, x: nat, c: Choice)
    requires |s.hist| > 0 && x in s.threads && s.threads[x].ListRepo? && !c.fail && c.out.Page?
    ensures var th := s.threads[x]; var t := Alone(s, x, c, 4);
      var k, v := ListK(th.ver, th.page, th.size), ListJson(c.out.items, c.out.total);
      && t.hist == s.hist && t.threads == s.threads[x := Returned(ListReply(c.out.items, c.out.total))]
      && t.local == s.local[k := v] && t.redis == s.redis[k := v]
  {
    var th := s.threads[x];
    var k, v := ListK(th.ver, th.page, th.size), ListJson(c.out.items, c.out.total);
    var s1 := Step(s, x, c);
    assert s1 == Goto(s, x, Running([LocalSet(k, v), RedisSet(k, v)], ListReply(c.out.items, c.out.total), None));
    var s2 := Step(s1, x, c);
    assert s2.threads[x] == Running([RedisSet(k, v)], ListReply(c.out.items, c.out.total), None);
    var s3 := Step(s2, x, c);
    assert s3.threads[x] == Running([], ListReply(c.out.items, c.out.total), None);
    var s4 := Step(s3, x, c);
    hide Step;
    assert Alone(s3, x, c, 1) == s4;
    assert Alone(s1, x, c, 3) == s4;
  }

  /** An entry in the local tier answers at once; one in Redis answers after being copied to the local tier. */
  lemma HitsAnswer(s: State, x: nat, c: Choice, k: Key, v: Payload)
    requires |s.hist| > 0 && x in s.threads && !c.fail
    requires (k.UserK? && v.UserJson?) || (k.ListK? && v.ListJson?)
    ensures var reply := if v.UserJson? then UserReply(v.user) else ListReply(v.users, v.total);
      var local := if k.UserK? then GetLocal(k.id) else ListLocal(k.ver, k.page, k.size);
      var redis := if k.UserK? then GetRedis(k.id) else ListRedis(k.ver, k.page, k.size);
      && (s.threads[x] == local && Lookup(s.local, k) == Some(v) ==> Step(s, x, c).threads[x] == Returned(reply))
      && (s.threads[x] == redis && Lookup(s.redis, k) == Some(v) ==>
            var t := Alone(s, x, c, 3); t.threads[x] == Returned(reply) && t.local == s.local[k := v])
  {
    if s.threads[x].GetRedis? || s.threads[x].ListRedis? {
      if Lookup(s.redis, k) == Some(v) {
        var s1 := Step(s, x, c);
        if s1.threads[x].Running? {
          var s2 := Step(s1, x, c);
          assert Alone(s2, x, c, 1) == Step(s2, x, c);
          assert Alone(s1, x, c, 2) == Alone(s2, x, c, 1);
        }
      }
    }
  }
}

/**
 * Listings under every interleaving: what a List call returns was read from a table at least as
 * recent as every write that had returned when the call began, and while no write is between its
 * commit and its version bump the cached pages of the current version are pages of the current table.
 */
module ListFreshness {
  import opened Core
  import opened Paging
  import opened Table
  import opened Service
  import opened CachedService
  import opened Protocol

  // ----- what a version promises -----

  ghost predicate ReadSince(hist: seq<Snapshot>, from: nat, page: int64, size: int64, users: seq<User>, total: int) {
    exists k :: from <= k < |hist| && ListAllowed(hist[k].rows, page, size, Page(users, total))
  }

  /** An entry under version v was read from the base after version v was reached. */
  ghost predicate EntryOk(hist: seq<Snapshot>, reached: seq<nat>, k: Key, v: Payload) {
    k.ListK? && v.ListJson? ==>
      k.ver < |reached| && ReadSince(hist, reached[k.ver], k.page, k.size, v.users, v.total)
  }

  ghost predicate TierOk(hist: seq<Snapshot>, reached: seq<nat>, m: map<Key, Payload>) {
    forall k :: k in m ==> EntryOk(hist, reached, k, m[k])
  }

  ghost predicate InstrOk(hist: seq<Snapshot>, reached: seq<nat>, i: Instr) {
    match i
    case LocalSet(k, v) => EntryOk(hist, reached, k, v)
    case RedisSet(k, v) => EntryOk(hist, reached, k, v)
    case _ => true
  }

  /** The reply of a List call against the writes it must have seen. */
  ghost predicate ReplyFresh(hist: seq<Snapshot>, info: CallInfo, reply: Reply) {
    info.request.List? && reply.ListReply? ==>
      exists k :: 0 <= k < |hist| && (forall m :: m in info.seen ==> m <= k)
                  && ListAllowed(hist[k].rows, info.request.page, info.request.size, Page(reply.users, reply.total))
  }

  ghost predicate SeenBy(reached: seq<nat>, info: CallInfo, v: nat) {
    v < |reached| && forall m :: m in info.seen ==> m <= reached[v]
  }

  ghost predicate ListStage(reached: seq<nat>, info: CallInfo, v: nat, page: int64, size: int64) {
    info.request == List(page, size) && SeenBy(reached, info, v)
  }

  ghost predicate ThreadOk(hist: seq<Snapshot>, reached: seq<nat>, info: CallInfo, th: Thread) {
    match th
    case ListStart(page, size) => |reached| > 0 && ListStage(reached, info, |reached| - 1, page, size)
    case ListLocal(v, page, size) => ListStage(reached, info, v, page, size)
    case ListRedis(v, page, size) => ListStage(reached, info, v, page, size)
    case ListRepo(v, page, size) => ListStage(reached, info, v, page, size)
    case Running(todo, reply, mutation) =>
      && (forall i :: i in todo ==> InstrOk(hist, reached, i))
      && ReplyFresh(hist, info, reply)
      && (mutation.Some? ==>
            && mutation.value < |hist|
            && (Bump in todo || (|reached| > 0 && mutation.value <= reached[|reached| - 1])))
    case Returned(reply) => ReplyFresh(hist, info, reply)
    case _ => !info.request.List?
  }

  /** Some call has committed mutation j and has not bumped the version yet. */
  ghost predicate PendingWriter(s: State, j: nat) {
    exists tid :: tid in s.threads && s.threads[tid].Running? && s.threads[tid].mutation == Some(j)
        && Bump in s.threads[tid].todo
  }

  ghost predicate Inv(s: State) {
    && |s.hist| > 0
    && |s.reached| == s.ver + 1
    && (forall v, w :: 0 <= v <= w < |s.reached| ==> s.reached[v] <= s.reached[w])
    && (forall v :: 0 <= v < |s.reached| ==> s.reached[v] < |s.hist|)
    && TierOk(s.hist, s.reached, s.local)
    && TierOk(s.hist, s.reached, s.redis)
    && s.threads.Keys == s.calls.Keys
    && (forall tid :: tid in s.threads ==> ThreadOk(s.hist, s.reached, s.calls[tid], s.threads[tid]))
    && (forall m :: m in s.returned ==> m <= s.reached[s.ver])
    && (forall j :: s.reached[s.ver] < j < |s.hist| ==> PendingWriter(s, j))
  }

  // ----- stability: histories only grow -----

  ghost predicate Grows(hist: seq<Snapshot>, reached: seq<nat>, hist': seq<Snapshot>, reached': seq<nat>) {
    && hist <= hist' && reached <= reached'
    && (forall v, w :: 0 <= v <= w < |reached'| ==> reached'[v] <= reached'[w])
  }

  lemma TierStable(hist: seq<Snapshot>, reached: seq<nat>, hist': seq<Snapshot>, reached': seq<nat>,
                   m: map<Key, Payload>)
    requires Grows(hist, reached, hist', reached') && TierOk(hist, reached, m)
    ensures TierOk(hist', reached', m)
  {
  }

  lemma ThreadStable(hist: seq<Snapshot>, reached: seq<nat>, hist': seq<Snapshot>, reached': seq<nat>, info: CallInfo,
                     th: Thread)
    requires Grows(hist, reached, hist', reached') && ThreadOk(hist, reached, info, th)
    ensures ThreadOk(hist', reached', info, th)
  {
  }

  // ----- one step -----

  ghost predicate Pending(th: Thread) {
    th.Running? && th.mutation.Some? && Bump in th.todo
  }

  /**
   * A step that replaces thread `tid` keeps the other threads' promises, because histories only grow.
   */
  lemma ThreadsKept(s: State, s': State, tid: nat)
    requires Inv(s) && tid in s.threads && Grows(s.hist, s.reached, s'.hist, s'.reached)
    requires s'.calls == s.calls && s'.threads.Keys == s.threads.Keys
    requires forall x :: x in s.threads && x != tid ==> s'.threads[x] == s.threads[x]
    requires ThreadOk(s'.hist, s'.reached, s.calls[tid], s'.threads[tid])
    ensures forall x :: x in s'.threads ==> ThreadOk(s'.hist, s'.reached, s'.calls[x], s'.threads[x])
  {
  }

  lemma PendingKept(s: State, s': State, tid: nat, j: nat)
    requires PendingWriter(s, j) && tid in s.threads
    requires s'.threads.Keys == s.threads.Keys
    requires forall x :: x in s.threads && x != tid ==> s'.threads[x] == s.threads[x]
    requires Pending(s.threads[tid]) ==> Pending(s'.threads[tid]) && s'.threads[tid].mutation == s.threads[tid].mutation
    ensures PendingWriter(s', j)
  {
  }

  /** A step that neither commits nor bumps. */
  lemma QuietStep(s: State, s': State, tid: nat)
    requires Inv(s) && tid in s.threads
    requires s'.hist == s.hist && s'.reached == s.reached && s'.ver == s.ver && s'.calls == s.calls
    requires s'.threads.Keys == s.threads.Keys
    requires forall x :: x in s.threads && x != tid ==> s'.threads[x] == s.threads[x]
    requires ThreadOk(s.hist, s.reached, s.calls[tid], s'.threads[tid])
    requires TierOk(s.hist, s.reached, s'.local) && TierOk(s.hist, s.reached, s'.redis)
    requires forall m :: m in s'.returned ==> m <= s.reached[s.ver]
    requires Pending(s.threads[tid]) ==> Pending(s'.threads[tid]) && s'.threads[tid].mutation == s.threads[tid].mutation
    ensures Inv(s')
  {
    ThreadsKept(s, s', tid);
    forall j | s'.reached[s'.ver] < j < |s'.hist|
      ensures PendingWriter(s', j)
    {
      PendingKept(s, s', tid, j);
    }
  }

  lemma GotoKeeps(s: State, tid: nat, th: Thread)
    requires Inv(s) && tid in s.threads && !Pending(s.threads[tid])
    requires ThreadOk(s.hist, s.reached, s.calls[tid], th)
    ensures Inv(Goto(s, tid, th))
  {
    QuietStep(s, Goto(s, tid, th), tid);
  }

  lemma CommitKeeps(s: State, tid: nat, next: Snapshot, todo: seq<Instr>, reply: Reply)
    requires Inv(s) && tid in s.threads && !Pending(s.threads[tid])
    requires !s.calls[tid].request.List? && Bump in todo
    requires forall i :: i in todo ==> InstrOk(s.hist, s.reached, i)
    ensures Inv(Commit(s, tid, next, todo, reply))
  {
    var s' := Commit(s, tid, next, todo, reply);
    assert Grows(s.hist, s.reached, s'.hist, s'.reached);
    TierStable(s.hist, s.reached, s'.hist, s'.reached, s.local);
    TierStable(s.hist, s.reached, s'.hist, s'.reached, s.redis);
    ThreadStable(s.hist, s.reached, s'.hist, s'.reached, s.calls[tid], Running(todo, reply, None));
    ThreadsKept(s, s', tid);
    forall j | s'.reached[s'.ver] < j < |s'.hist|
      ensures PendingWriter(s', j)
    {
      if j == |s.hist| {
        assert s'.threads[tid].mutation == Some(j);
      } else {
        PendingKept(s, s', tid, j);
      }
    }
  }

  lemma BumpKeeps(s: State, tid: nat, todo: seq<Instr>, reply: Reply, mutation: Option<nat>)
    requires Inv(s) && tid in s.threads && s.threads[tid] == Running([Bump] + todo, reply, mutation)
    ensures Inv(Goto(Exec(s, Bump, false), tid, Running(todo, reply, mutation)))
  {
    var s' := Goto(Exec(s, Bump, false), tid, Running(todo, reply, mutation));
    assert Grows(s.hist, s.reached, s'.hist, s'.reached);
    TierStable(s.hist, s.reached, s'.hist, s'.reached, s.local);
    TierStable(s.hist, s.reached, s'.hist, s'.reached, s.redis);
    ThreadStable(s.hist, s.reached, s'.hist, s'.reached, s.calls[tid], s.threads[tid]);
    forall i | i in todo
      ensures InstrOk(s'.hist, s'.reached, i)
    {
      assert i in s.threads[tid].todo;
    }
    ThreadsKept(s, s', tid);
  }

  lemma RunningKeeps(s: State, tid: nat, c: Choice)
    requires Inv(s) && tid in s.threads && s.threads[tid].Running?
    ensures Inv(RunStep(s, tid, c))
  {
    var Running(todo, reply, mutation) := s.threads[tid];
    var s' := RunStep(s, tid, c);
    assert ThreadOk(s.hist, s.reached, s.calls[tid], s.threads[tid]);
    if todo == [] {
      QuietStep(s, s', tid);
    } else if todo[0] == Bump {
      assert todo == [todo[0]] + todo[1..];
      BumpKeeps(s, tid, todo[1..], reply, mutation);
    } else {
      InstrKeeps(s, tid, c);
    }
  }

  lemma InstrKeeps(s: State, tid: nat, c: Choice)
    requires Inv(s) && tid in s.threads && s.threads[tid].Running?
    requires var todo := s.threads[tid].todo; todo != [] && todo[0] != Bump
    ensures Inv(RunStep(s, tid, c))
  {
    hide ReadSince, EntryOk, ReplyFresh, ListStage, PendingWriter;
    var todo := s.threads[tid].todo;
    assert ThreadOk(s.hist, s.reached, s.calls[tid], s.threads[tid]);
    assert todo == [todo[0]] + todo[1..];
    assert InstrOk(s.hist, s.reached, todo[0]);
    assert forall i :: i in todo[1..] ==> i in todo;
    hide Inv, ThreadOk, EntryOk, ListAllowed;
    QuietStep(s, RunStep(s, tid, c), tid);
  }

  lemma UserInstrsOk(hist: seq<Snapshot>, reached: seq<nat>, u: User, id: Uuid)
    ensures forall i :: i in SetUserInstrs(u) ==> InstrOk(hist, reached, i)
    ensures forall i :: i in DelUserInstrs(id) ==> InstrOk(hist, reached, i)
  {
  }

  lemma CreateKeeps(s: State, tid: nat, c: Choice)
    requires Inv(s) && tid in s.threads && (s.threads[tid].CreateStart? || s.threads[tid].CreateRepo?)
    ensures Inv(CreateStep(s, tid, c))
  {
    hide CreateRow, NewUser, InstrOk, ReplyFresh;
    var cur, th := s.hist[s.Now()], s.threads[tid];
    assert ThreadOk(s.hist, s.reached, s.calls[tid], th);
    if th.CreateRepo? && !c.fail && CreateRow(cur.rows, th.user).Ok? {
      UserInstrsOk(s.hist, s.reached, th.user, th.user.id);
      CommitKeeps(s, tid, Snapshot(CreateRow(cur.rows, th.user).value, cur.creates + 1, cur.deletes),
                  [Bump] + SetUserInstrs(th.user), UserReply(th.user)) by { BumpOk(s); }
    } else {
      NotAListReply(s, s.calls[tid], CreateStep(s, tid, c).threads[tid]);
      GotoKeeps(s, tid, CreateStep(s, tid, c).threads[tid]);
    }
  }

  lemma BumpOk(s: State)
    ensures InstrOk(s.hist, s.reached, Bump)
  {
  }

  /** Calls other than List owe nothing while they only move forward. */
  lemma NotAListReply(s: State, info: CallInfo, th: Thread)
    requires !info.request.List? && !th.Running?
    requires !(th.ListStart? || th.ListLocal? || th.ListRedis? || th.ListRepo?)
    ensures ThreadOk(s.hist, s.reached, info, th)
  {
  }

  lemma UpdateKeeps(s: State, tid: nat, c: Choice)
    requires Inv(s) && tid in s.threads
    requires s.threads[tid].UpdateRead? || s.threads[tid].UpdateEdit? || s.threads[tid].UpdateRepo?
    ensures Inv(UpdateStep(s, tid, c))
  {
    hide UpdateRow, GetRow, ChangedUser, InstrOk, ReplyFresh;
    var cur, th := s.hist[s.Now()], s.threads[tid];
    assert ThreadOk(s.hist, s.reached, s.calls[tid], th);
    if th.UpdateRepo? && !c.fail && UpdateRow(cur.rows, th.user).Ok? {
      UserInstrsOk(s.hist, s.reached, th.user, th.user.id);
      CommitKeeps(s, tid, Snapshot(UpdateRow(cur.rows, th.user).value, cur.creates, cur.deletes),
                  DelUserInstrs(th.user.id) + [Bump] + SetUserInstrs(th.user), UserReply(th.user)) by { BumpOk(s); }
    } else {
      NotAListReply(s, s.calls[tid], UpdateStep(s, tid, c).threads[tid]);
      GotoKeeps(s, tid, UpdateStep(s, tid, c).threads[tid]);
    }
  }

  lemma DeleteKeeps(s: State, tid: nat, c: Choice)
    requires Inv(s) && tid in s.threads && s.threads[tid].DeleteRepo?
    ensures Inv(DeleteStep(s, tid, c))
  {
    hide DeleteRow, InstrOk, ReplyFresh;
    var cur, id := s.hist[s.Now()], s.threads[tid].id;
    assert ThreadOk(s.hist, s.reached, s.calls[tid], s.threads[tid]);
    if !c.fail && DeleteRow(cur.rows, id, s.clock).Ok? {
      var any := User(id, "", "", 0, 0, None);
      UserInstrsOk(s.hist, s.reached, any, id);
      CommitKeeps(s, tid, Snapshot(DeleteRow(cur.rows, id, s.clock).value, cur.creates, cur.deletes + 1),
                  DelUserInstrs(id) + [Bump], DeletedReply) by { BumpOk(s); }
    } else {
      NotAListReply(s, s.calls[tid], DeleteStep(s, tid, c).threads[tid]);
      GotoKeeps(s, tid, DeleteStep(s, tid, c).threads[tid]);
    }
  }

  lemma GetKeeps(s: State, tid: nat, c: Choice)
    requires Inv(s) && tid in s.threads
    requires s.threads[tid].GetLocal? || s.threads[tid].GetRedis? || s.threads[tid].GetRepo?
    ensures Inv(GetStep(s, tid, c))
  {
    assert ThreadOk(s.hist, s.reached, s.calls[tid], s.threads[tid]);
    GotoKeeps(s, tid, GetStep(s, tid, c).threads[tid]);
  }

  /** A hit under version v is fresh for a call that saw no mutation later than that version. */
  lemma HitIsFresh(s: State, tid: nat, v: nat, page: int64, size: int64, p: Payload)
    requires Inv(s) && tid in s.threads && ListStage(s.reached, s.calls[tid], v, page, size)
    requires p.ListJson? && EntryOk(s.hist, s.reached, ListK(v, page, size), p)
    ensures ReplyFresh(s.hist, s.calls[tid], ListReply(p.users, p.total))
  {
  }

  lemma ListStepKeeps(s: State, tid: nat, c: Choice)
    requires Inv(s) && Enabled(s, Advance(tid, c)) && s.ver < TWO64
    requires var th := s.threads[tid]; th.ListStart? || th.ListLocal? || th.ListRedis? || th.ListRepo?
    ensures Inv(ListStep(s, tid, c))
  {
    if s.threads[tid].ListRepo? {
      ListRepoKeeps(s, tid, c);
    } else {
      ListLookupKeeps(s, tid, c);
    }
  }

  lemma ListLookupKeeps(s: State, tid: nat, c: Choice)
    requires Inv(s) && Enabled(s, Advance(tid, c)) && s.ver < TWO64
    requires var th := s.threads[tid]; th.ListStart? || th.ListLocal? || th.ListRedis?
    ensures Inv(ListStep(s, tid, c))
  {
    var th := s.threads[tid];
    assert ThreadOk(s.hist, s.reached, s.calls[tid], th);
    if th.ListLocal? || th.ListRedis? {
      var k := ListK(th.ver, th.page, th.size);
      var tier := if th.ListLocal? then s.local else s.redis;
      if k in tier && tier[k].ListJson? {
        HitIsFresh(s, tid, th.ver, th.page, th.size, tier[k]);
      }
    }
    GotoKeeps(s, tid, ListStep(s, tid, c).threads[tid]);
  }

  lemma ListRepoKeeps(s: State, tid: nat, c: Choice)
    requires Inv(s) && Enabled(s, Advance(tid, c)) && s.ver < TWO64 && s.threads[tid].ListRepo?
    ensures Inv(ListStep(s, tid, c))
  {
    var th := s.threads[tid];
    assert ThreadOk(s.hist, s.reached, s.calls[tid], th);
    if !c.fail && c.out.Page? {
      var p := ListJson(c.out.items, c.out.total);
      assert ListAllowed(s.hist[s.Now()].rows, th.page, th.size, Page(p.users, p.total));
      assert EntryOk(s.hist, s.reached, ListK(th.ver, th.page, th.size), p);
      HitIsFresh(s, tid, th.ver, th.page, th.size, p);
    }
    GotoKeeps(s, tid, ListStep(s, tid, c).threads[tid]);
  }

  lemma AdvanceKeeps(s: State, tid: nat, c: Choice)
    requires Inv(s) && Enabled(s, Advance(tid, c)) && s.ver < TWO64
    ensures Inv(Step(s, tid, c))
  {
    hide Inv, CreateStep, GetStep, UpdateStep, DeleteStep, ListStep, RunStep, ListAllowed;
    var th := s.threads[tid];
    if th.CreateStart? || th.CreateRepo? {
      CreateKeeps(s, tid, c);
    } else if th.GetLocal? || th.GetRedis? || th.GetRepo? {
      GetKeeps(s, tid, c);
    } else if th.UpdateRead? || th.UpdateEdit? || th.UpdateRepo? {
      UpdateKeeps(s, tid, c);
    } else if th.DeleteRepo? {
      DeleteKeeps(s, tid, c);
    } else if th.Running? {
      RunningKeeps(s, tid, c);
    } else {
      ListStepKeeps(s, tid, c);
    }
  }

  lemma StepKeeps(s: State, a: Action)
    requires Inv(s) && Enabled(s, a) && s.ver < TWO64
    ensures Inv(Apply(s, a))
  {
    match a
    case Begin(tid, r) =>
      var s' := Apply(s, a);
      assert ThreadOk(s'.hist, s'.reached, s'.calls[tid], s'.threads[tid]);
      forall j | s'.reached[s'.ver] < j < |s'.hist|
        ensures PendingWriter(s', j)
      {
        assert PendingWriter(s, j);
        var x :| x in s.threads && s.threads[x].Running? && s.threads[x].mutation == Some(j)
            && Bump in s.threads[x].todo;
        assert s'.threads[x] == s.threads[x];
      }
    case Advance(tid, c) => AdvanceKeeps(s, tid, c);
    case Evict(lostLocal, lostRedis) =>
      var s' := Apply(s, a);
      forall j | s'.reached[s'.ver] < j < |s'.hist|
        ensures PendingWriter(s', j)
      {
        assert PendingWriter(s, j);
      }
    case Tick(now) =>
      var s' := Apply(s, a);
      forall j | s'.reached[s'.ver] < j < |s'.hist|
        ensures PendingWriter(s', j)
      {
        assert PendingWriter(s, j);
      }
  }

  // ----- whole runs -----

  lemma {:induction false} RunKeeps(states: seq<State>, acts: seq<Action>, n: nat)
    requires IsRun(states, acts) && Init(states[0]) && n <= |acts| && states[n].ver < TWO64
    ensures Inv(states[n])
  {
    if n > 0 {
      assert Follows(states, acts, n - 1);
      RunKeeps(states, acts, n - 1);
      StepKeeps(states[n - 1], acts[n - 1]);
    }
  }

  /**
   * List freshness. In every run, with any calls interleaved in any way, evictions at any moment and
   * any Redis failures: a List reply is a page of a table at least as recent as every write that had
   * returned before the List began. The premise is that the 64-bit version counter has not wrapped.
   */
  lemma ListsAreFresh(states: seq<State>, acts: seq<Action>, tid: nat) returns (k: nat)
    requires IsRun(states, acts) && Init(states[0])
    requires states[|acts|].ver < TWO64
    requires var s := states[|acts|];
             tid in s.threads && tid in s.calls && s.calls[tid].request.List?
             && s.threads[tid].Returned? && s.threads[tid].reply.ListReply?
    ensures var s := states[|acts|];
            var req, reply := s.calls[tid].request, s.threads[tid].reply;
            && k < |s.hist|
            && (forall m :: m in s.calls[tid].seen ==> m <= k)
            && ListAllowed(s.hist[k].rows, req.page, req.size, Page(reply.users, reply.total))
  {
    RunKeeps(states, acts, |acts|);
    var s := states[|acts|];
    assert ReplyFresh(s.hist, s.calls[tid], s.threads[tid].reply);
    k :| 0 <= k < |s.hist| && (forall m :: m in s.calls[tid].seen ==> m <= k)
         && ListAllowed(s.hist[k].rows, s.calls[tid].request.page, s.calls[tid].request.size,
                        Page(s.threads[tid].reply.users, s.threads[tid].reply.total));
  }

  /**
   * Quiescent coherence. Whenever no write is between its commit and its bump, every list entry stored
   * under the current version, in either tier, is a page of the current table.
   */
  lemma QuiescentListsAreCurrent(states: seq<State>, acts: seq<Action>, k: Key)
    requires IsRun(states, acts) && Init(states[0])
    requires states[|acts|].ver < TWO64
    requires var s := states[|acts|]; forall tid :: tid in s.threads ==> !Pending(s.threads[tid])
    requires var s := states[|acts|]; k.ListK? && k.ver == Counter(s.ver) && (k in s.local || k in s.redis)
    ensures var s := states[|acts|];
            && |s.hist| > 0
            && (k in s.local && s.local[k].ListJson? ==> ListEntryOk(s.Rows(), k.page, k.size, s.local[k]))
            && (k in s.redis && s.redis[k].ListJson? ==> ListEntryOk(s.Rows(), k.page, k.size, s.redis[k]))
  {
    RunKeeps(states, acts, |acts|);
    var s := states[|acts|];
    assert s.reached[s.ver] < s.Now() ==> PendingWriter(s, s.Now());
  }
}

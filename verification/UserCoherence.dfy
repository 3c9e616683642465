/**
 * User entries: when a write overlaps no other call on its id (reads of one id overlap freely, and so do
 * calls on different ids) and the writers' Redis commands succeed, an id no write is working on is
 * cached only as the live row it has.
 */
module UserCoherence {
  import opened Core
  import opened Table
  import opened Service
  import opened CachedService
  import opened Protocol

  // ----- which id a call is working on -----

  /** The id a call in flight is about; a Create is about the id it has drawn. */
  function Subject(info: CallInfo, th: Thread): Option<Uuid> {
    if th.Returned? then None
    else
      match info.request
      case Get(id) => Some(id)
      case Update(id, _, _) => Some(id)
      case Delete(id) => Some(id)
      case List(_, _) => None
      case Create(_, _) =>
        if th.CreateRepo? then Some(th.user.id)
        else if th.Running? && th.reply.UserReply? then Some(th.reply.user.id)
        else None
  }

  ghost predicate Busy(s: State, id: Uuid) {
    exists tid :: tid in s.threads && tid in s.calls && Subject(s.calls[tid], s.threads[tid]) == Some(id)
  }

  /** Some call on the id, other than a Get, is in flight. */
  ghost predicate Written(s: State, id: Uuid) {
    exists tid :: tid in s.threads && tid in s.calls && !s.calls[tid].request.Get?
                  && Subject(s.calls[tid], s.threads[tid]) == Some(id)
  }

  function RequestId(r: Request): Option<Uuid> {
    match r
    case Get(id) => Some(id)
    case Update(id, _, _) => Some(id)
    case Delete(id) => Some(id)
    case _ => None
  }

  predicate Writes(r: Request) {
    !r.Get? && !r.List?
  }

  /**
   * The discipline: a Get may start unless a write is in flight on its id; a write may start, and a
   * Create may draw an id, only if no call at all is in flight on it; the Redis commands of a write succeed.
   */
  ghost predicate Disciplined(s: State, a: Action) {
    match a
    case Begin(tid, r) =>
      RequestId(r).Some? ==> if r.Get? then !Written(s, r.id) else !Busy(s, RequestId(r).value)
    case Advance(tid, c) =>
      && (tid in s.threads && s.threads[tid].CreateStart? ==> !Busy(s, c.id))
      && (tid in s.threads && s.threads[tid].Running? && tid in s.calls && Writes(s.calls[tid].request) ==> !c.fail)
    case _ => true
  }

  // ----- what the three stores say about one id -----

  datatype View = View(row: Option<User>, local: Option<Payload>, redis: Option<Payload>)

  function Lookup<K, V>(m: map<K, V>, k: K): Option<V> {
    if k in m then Some(m[k]) else None
  }

  function ViewOf(s: State, id: Uuid): View
    requires |s.hist| > 0
  {
    View(Lookup(s.Rows(), id), Lookup(s.local, UserK(id)), Lookup(s.redis, UserK(id)))
  }

  /** A cached entry is absent or the live row. */
  predicate EntryOk(row: Option<User>, e: Option<Payload>) {
    e.Some? ==> row.Some? && row.value.Live() && e.value == UserJson(row.value)
  }

  predicate Settled(v: View) {
    EntryOk(v.row, v.local) && EntryOk(v.row, v.redis)
  }

  function LocalAfter(todo: seq<Instr>, id: Uuid, e: Option<Payload>): Option<Payload> {
    if todo == [] then e
    else
      LocalAfter(todo[1..], id,
                 match todo[0]
                 case LocalSet(k, v) => if k == UserK(id) then Some(v) else e
                 case LocalDel(k) => if k == UserK(id) then None else e
                 case _ => e)
  }

  function RedisAfter(todo: seq<Instr>, id: Uuid, e: Option<Payload>): Option<Payload> {
    if todo == [] then e
    else
      RedisAfter(todo[1..], id,
                 match todo[0]
                 case RedisSet(k, v) => if k == UserK(id) then Some(v) else e
                 case RedisDel(k) => if k == UserK(id) then None else e
                 case _ => e)
  }

  /** Once the remaining instructions have run, the id is settled. */
  predicate WillSettle(todo: seq<Instr>, id: Uuid, v: View) {
    EntryOk(v.row, LocalAfter(todo, id, v.local)) && EntryOk(v.row, RedisAfter(todo, id, v.redis))
  }

  predicate Touches(i: Instr, id: Uuid) {
    match i
    case LocalSet(k, _) => k == UserK(id)
    case RedisSet(k, _) => k == UserK(id)
    case LocalDel(k) => k == UserK(id)
    case RedisDel(k) => k == UserK(id)
    case Bump => true
  }

  predicate ListsOnly(i: Instr) {
    match i
    case LocalSet(k, _) => k.ListK?
    case RedisSet(k, _) => k.ListK?
    case _ => false
  }

  predicate ReplyOk(row: Option<User>, reply: Reply) {
    reply.UserReply? ==> row == Some(reply.user) && reply.user.Live()
  }

  /** A call working on `id`. */
  predicate WorkerOk(id: Uuid, v: View, th: Thread) {
    match th
    case Running(todo, reply, _) =>
      WillSettle(todo, id, v) && ReplyOk(v.row, reply) && forall i :: i in todo ==> Touches(i, id)
    case CreateRepo(u) => u.id == id && u.Live() && Settled(v)
    case UpdateEdit(u, _, _) => u.id == id && u.Live() && Settled(v)
    case UpdateRepo(u) => u.id == id && u.Live() && Settled(v)
    case _ => Settled(v)
  }

  /** A reader's remaining instruction: store the live row. */
  predicate Stores(i: Instr, id: Uuid, row: Option<User>) {
    row.Some? && row.value.Live() &&
    (i == LocalSet(UserK(id), UserJson(row.value)) || i == RedisSet(UserK(id), UserJson(row.value)))
  }

  /** A Get of `id`. */
  predicate ReaderOk(id: Uuid, v: View, th: Thread) {
    && Settled(v)
    && (th.Running? ==> ReplyOk(v.row, th.reply) && forall i :: i in th.todo ==> Stores(i, id, v.row))
  }

  predicate CallOk(info: CallInfo, id: Uuid, v: View, th: Thread) {
    if info.request.Get? then ReaderOk(id, v, th) else WorkerOk(id, v, th)
  }

  predicate StageOk(info: CallInfo, th: Thread) {
    match th
    case CreateStart(_, _) => info.request.Create?
    case CreateRepo(_) => info.request.Create?
    case GetLocal(id) => info.request == Get(id)
    case GetRedis(id) => info.request == Get(id)
    case GetRepo(id) => info.request == Get(id)
    case UpdateRead(id, _, _) => info.request.Update? && info.request.id == id
    case UpdateEdit(u, _, _) => info.request.Update? && info.request.id == u.id
    case UpdateRepo(u) => info.request.Update? && info.request.id == u.id
    case DeleteRepo(id) => info.request == Delete(id)
    case Running(todo, reply, _) =>
      (info.request.Create? ==> reply.UserReply?) && (info.request.List? ==> forall i :: i in todo ==> ListsOnly(i))
    case Returned(_) => true
    case _ => info.request.List?
  }

  ghost predicate Inv(s: State) {
    && |s.hist| > 0 && WellKeyed(s.Rows()) && s.threads.Keys == s.calls.Keys
    && (forall x :: x in s.threads ==> StageOk(s.calls[x], s.threads[x]))
    && (forall x, y :: x in s.threads && y in s.threads && x != y && Shared(s, x, y) ==>
          s.calls[x].request.Get? && s.calls[y].request.Get?)
    && (forall x :: x in s.threads && Subject(s.calls[x], s.threads[x]).Some? ==>
          var id := Subject(s.calls[x], s.threads[x]).value; CallOk(s.calls[x], id, ViewOf(s, id), s.threads[x]))
    && (forall id :: !Busy(s, id) ==> Settled(ViewOf(s, id)))
  }

  /** Two calls are working on the same id. */
  predicate Shared(s: State, x: nat, y: nat)
    requires x in s.threads && y in s.threads && s.threads.Keys == s.calls.Keys
  {
    && Subject(s.calls[x], s.threads[x]).Some?
    && Subject(s.calls[x], s.threads[x]) == Subject(s.calls[y], s.threads[y])
  }

  // ----- eviction -----

  lemma {:induction false} LocalAfterLoss(todo: seq<Instr>, id: Uuid, row: Option<User>, e: Option<Payload>)
    requires EntryOk(row, LocalAfter(todo, id, e))
    ensures EntryOk(row, LocalAfter(todo, id, None))
  {
    if todo != [] {
      match todo[0]
      case LocalSet(k, v) => if k != UserK(id) { LocalAfterLoss(todo[1..], id, row, e); }
      case LocalDel(k) => if k != UserK(id) { LocalAfterLoss(todo[1..], id, row, e); }
      case _ => LocalAfterLoss(todo[1..], id, row, e);
    }
  }

  lemma {:induction false} RedisAfterLoss(todo: seq<Instr>, id: Uuid, row: Option<User>, e: Option<Payload>)
    requires EntryOk(row, RedisAfter(todo, id, e))
    ensures EntryOk(row, RedisAfter(todo, id, None))
  {
    if todo != [] {
      match todo[0]
      case RedisSet(k, v) => if k != UserK(id) { RedisAfterLoss(todo[1..], id, row, e); }
      case RedisDel(k) => if k != UserK(id) { RedisAfterLoss(todo[1..], id, row, e); }
      case _ => RedisAfterLoss(todo[1..], id, row, e);
    }
  }

  lemma WorkerSurvivesLoss(id: Uuid, v: View, v': View, th: Thread)
    requires WorkerOk(id, v, th) && v'.row == v.row
    requires v'.local == v.local || v'.local == None
    requires v'.redis == v.redis || v'.redis == None
    ensures WorkerOk(id, v', th)
  {
    if th.Running? {
      LocalAfterLoss(th.todo, id, v.row, v.local);
      RedisAfterLoss(th.todo, id, v.row, v.redis);
    }
  }

  lemma CallSurvivesLoss(info: CallInfo, id: Uuid, v: View, v': View, th: Thread)
    requires CallOk(info, id, v, th) && v'.row == v.row
    requires v'.local == v.local || v'.local == None
    requires v'.redis == v.redis || v'.redis == None
    ensures CallOk(info, id, v', th)
  {
    if !info.request.Get? {
      WorkerSurvivesLoss(id, v, v', th);
    }
  }

  ghost predicate Loses(v: View, v': View) {
    v'.row == v.row && (v'.local == v.local || v'.local == None) && (v'.redis == v.redis || v'.redis == None)
  }

  lemma SettledSurvivesLoss(v: View, v': View)
    requires Settled(v) && Loses(v, v')
    ensures Settled(v')
  {
  }

  lemma EvictedViews(s: State, s': State, lostLocal: set<Key>, lostRedis: set<Key>)
    requires |s.hist| > 0 && s' == s.(local := s.local - lostLocal, redis := s.redis - lostRedis)
    ensures forall id :: Loses(ViewOf(s, id), ViewOf(s', id))
  {
  }

  lemma EvictKeeps(s: State, lostLocal: set<Key>, lostRedis: set<Key>)
    requires Inv(s)
    ensures Inv(s.(local := s.local - lostLocal, redis := s.redis - lostRedis))
  {
    var s' := s.(local := s.local - lostLocal, redis := s.redis - lostRedis);
    EvictedViews(s, s', lostLocal, lostRedis);
    hide Subject, WorkerOk, ReaderOk, CallOk, StageOk, ViewOf, Settled, Lookup;
    forall x | x in s.threads && Subject(s.calls[x], s.threads[x]).Some?
      ensures var id := Subject(s.calls[x], s.threads[x]).value; CallOk(s.calls[x], id, ViewOf(s', id), s.threads[x])
    {
      var id := Subject(s.calls[x], s.threads[x]).value;
      CallSurvivesLoss(s.calls[x], id, ViewOf(s, id), ViewOf(s', id), s.threads[x]);
    }
    forall x, y | x in s.threads && y in s.threads && x != y && Shared(s', x, y)
      ensures s.calls[x].request.Get? && s.calls[y].request.Get?
    {
      assert Shared(s, x, y);
    }
    forall id | !Busy(s', id)
      ensures Settled(ViewOf(s', id))
    {
      assert !Busy(s, id);
      SettledSurvivesLoss(ViewOf(s, id), ViewOf(s', id));
    }
  }

  // ----- a step of one call leaves the others alone -----

  /** Only thread `tid` moved, and no store changed on any id but `id`. */
  ghost predicate OnlyOn(s: State, s': State, tid: nat, id: Uuid) {
    && |s.hist| > 0 && |s'.hist| > 0 && s'.calls == s.calls
    && tid in s.threads && tid in s'.threads && s'.threads == s.threads[tid := s'.threads[tid]]
    && WellKeyed(s'.Rows())
    && forall x :: x != id ==> ViewOf(s', x) == ViewOf(s, x)
  }

  /** The call on `id` moves: a write keeps working on it or returns with it settled, a Get keeps it settled. */
  lemma CallMoves(s: State, s': State, tid: nat, id: Uuid)
    requires Inv(s) && OnlyOn(s, s', tid, id)
    requires Subject(s.calls[tid], s.threads[tid]) == Some(id)
    requires StageOk(s.calls[tid], s'.threads[tid])
    requires if s'.threads[tid].Returned? then Settled(ViewOf(s', id))
             else Subject(s.calls[tid], s'.threads[tid]) == Some(id)
                  && CallOk(s.calls[tid], id, ViewOf(s', id), s'.threads[tid])
    requires s.calls[tid].request.Get? ==> Settled(ViewOf(s', id)) && ViewOf(s', id).row == ViewOf(s, id).row
    ensures Inv(s')
  {
    hide Settled, WorkerOk, ReaderOk, ViewOf, StageOk, Subject;
    if s'.threads[tid].Returned? {
      ReturnedHasNoSubject(s.calls[tid], s'.threads[tid]);
    }
    forall x, y | x in s'.threads && y in s'.threads && x != y && Shared(s', x, y)
      ensures s'.calls[x].request.Get? && s'.calls[y].request.Get?
    {
      assert Shared(s, x, y);
    }
    forall x | x in s'.threads && Subject(s'.calls[x], s'.threads[x]).Some?
      ensures var i := Subject(s'.calls[x], s'.threads[x]).value; CallOk(s'.calls[x], i, ViewOf(s', i), s'.threads[x])
    {
      if x != tid && Subject(s'.calls[x], s'.threads[x]) == Some(id) {
        assert Shared(s, x, tid);
        ReaderStays(id, ViewOf(s, id), ViewOf(s', id), s.threads[x]);
      }
    }
    forall x | !Busy(s', x)
      ensures Settled(ViewOf(s', x))
    {
      if x == id {
        assert Subject(s'.calls[tid], s'.threads[tid]) != Some(id);
      } else if Busy(s, x) {
        BusyElsewhere(s, s', tid, x);
      }
    }
  }

  /** Another Get of the same id changes only what was cached, and leaves it settled. */
  lemma ReaderStays(id: Uuid, v: View, v': View, th: Thread)
    requires ReaderOk(id, v, th) && Settled(v') && v'.row == v.row
    ensures ReaderOk(id, v', th)
  {
  }

  lemma ReturnedHasNoSubject(info: CallInfo, th: Thread)
    requires th.Returned?
    ensures Subject(info, th) == None
  {
  }

  /** Being busy with another id does not depend on where thread `tid` is. */
  lemma BusyElsewhere(s: State, s': State, tid: nat, x: Uuid)
    requires tid in s.threads && tid in s'.threads && s'.calls == s.calls
        && s'.threads == s.threads[tid := s'.threads[tid]]
    requires tid in s.calls ==> Subject(s.calls[tid], s.threads[tid]) != Some(x)
    requires Busy(s, x)
    ensures Busy(s', x)
  {
  }

  /** A call about no id moves and touches no user entry. */
  lemma BystanderMoves(s: State, s': State, tid: nat)
    requires Inv(s) && |s'.hist| > 0 && s'.calls == s.calls && s'.Rows() == s.Rows()
    requires tid in s.threads && tid in s'.threads && s'.threads == s.threads[tid := s'.threads[tid]]
    requires forall x :: ViewOf(s', x) == ViewOf(s, x)
    requires Subject(s.calls[tid], s.threads[tid]) == None && Subject(s.calls[tid], s'.threads[tid]) == None
    requires StageOk(s.calls[tid], s'.threads[tid])
    ensures Inv(s')
  {
    hide Settled, WorkerOk, ReaderOk, CallOk, ViewOf, StageOk, Subject;
    assert forall x :: x != tid && x in s.threads ==> s'.threads[x] == s.threads[x];
    forall x, y | x in s'.threads && y in s'.threads && x != y && Shared(s', x, y)
      ensures s'.calls[x].request.Get? && s'.calls[y].request.Get?
    {
      assert Shared(s, x, y);
    }
    forall x | !Busy(s', x)
      ensures Settled(ViewOf(s', x))
    {
      if Busy(s, x) {
        BusyElsewhere(s, s', tid, x);
      }
    }
  }

  // ----- the stages -----

  lemma Facts(s: State, tid: nat)
    requires Inv(s) && tid in s.threads
    ensures |s.hist| > 0 && WellKeyed(s.Rows()) && tid in s.calls
    ensures StageOk(s.calls[tid], s.threads[tid])
    ensures var sub := Subject(s.calls[tid], s.threads[tid]);
            sub.Some? ==> CallOk(s.calls[tid], sub.value, ViewOf(s, sub.value), s.threads[tid])
  {
  }

  /** A step that only moves the call on `id` on. */
  lemma GotoKeeps(s: State, tid: nat, id: Uuid, th: Thread)
    requires Inv(s) && tid in s.threads && Subject(s.calls[tid], s.threads[tid]) == Some(id)
    requires StageOk(s.calls[tid], th)
    requires if th.Returned? then Settled(ViewOf(s, id))
             else Subject(s.calls[tid], th) == Some(id) && CallOk(s.calls[tid], id, ViewOf(s, id), th)
    ensures Inv(Goto(s, tid, th))
  {
    hide Inv, WorkerOk, StageOk;
    Facts(s, tid);
    CallMoves(s, Goto(s, tid, th), tid, id);
  }

  /** Where a Get goes next: it has read nothing but the live row. */
  lemma GetAdvances(s: State, tid: nat, c: Choice)
    requires |s.hist| > 0 && WellKeyed(s.Rows()) && tid in s.threads && tid in s.calls
    requires s.threads[tid].GetLocal? || s.threads[tid].GetRedis? || s.threads[tid].GetRepo?
    requires StageOk(s.calls[tid], s.threads[tid]) && Settled(ViewOf(s, s.threads[tid].id))
    ensures var id, th := s.threads[tid].id, GetStep(s, tid, c).threads[tid];
            && GetStep(s, tid, c) == Goto(s, tid, th)
            && StageOk(s.calls[tid], th)
            && (th.Returned? || Subject(s.calls[tid], th) == Some(id))
            && ReaderOk(id, ViewOf(s, id), th)
  {
  }

  lemma GetKeeps(s: State, tid: nat, c: Choice)
    requires Inv(s) && tid in s.threads
    requires s.threads[tid].GetLocal? || s.threads[tid].GetRedis? || s.threads[tid].GetRepo?
    ensures Inv(GetStep(s, tid, c))
  {
    hide Inv;
    Facts(s, tid);
    GetAdvances(s, tid, c);
    GotoKeeps(s, tid, s.threads[tid].id, GetStep(s, tid, c).threads[tid]);
  }

  /** Setting both tiers to the live row settles the id, whatever was cached. */
  lemma SetUserSettles(u: User, v: View)
    requires v.row == Some(u) && u.Live()
    ensures WillSettle(SetUserInstrs(u), u.id, v)
    ensures LocalAfter(SetUserInstrs(u), u.id, v.local) == Some(UserJson(u))
    ensures RedisAfter(SetUserInstrs(u), u.id, v.redis) == Some(UserJson(u))
    ensures forall i :: i in SetUserInstrs(u) ==> Touches(i, u.id)
  {
    var k, p := UserK(u.id), UserJson(u);
    assert SetUserInstrs(u)[1..] == [RedisSet(k, p)];
    assert [RedisSet(k, p)][1..] == [];
    assert LocalAfter([RedisSet(k, p)], u.id, Some(p)) == Some(p);
    assert RedisAfter([RedisSet(k, p)], u.id, v.redis) == Some(p);
  }

  lemma {:induction false} AfterSkips(pre: seq<Instr>, todo: seq<Instr>, id: Uuid, l: Option<Payload>,
                                      r: Option<Payload>)
    ensures LocalAfter(pre + todo, id, l) == LocalAfter(todo, id, LocalAfter(pre, id, l))
    ensures RedisAfter(pre + todo, id, r) == RedisAfter(todo, id, RedisAfter(pre, id, r))
  {
    if pre == [] {
      assert pre + todo == todo;
    } else {
      assert (pre + todo)[1..] == pre[1..] + todo;
      var l' := match pre[0]
                case LocalSet(k, v) => if k == UserK(id) then Some(v) else l
                case LocalDel(k) => if k == UserK(id) then None else l
                case _ => l;
      var r' := match pre[0]
                case RedisSet(k, v) => if k == UserK(id) then Some(v) else r
                case RedisDel(k) => if k == UserK(id) then None else r
                case _ => r;
      AfterSkips(pre[1..], todo, id, l', r');
    }
  }

  /** Whatever comes first, ending with both sets settles the id: both tiers hold exactly the user. */
  lemma WriteThenSetSettles(pre: seq<Instr>, u: User, v: View)
    requires v.row == Some(u) && u.Live()
    ensures WillSettle(pre + SetUserInstrs(u), u.id, v)
    ensures LocalAfter(pre + SetUserInstrs(u), u.id, v.local) == Some(UserJson(u))
    ensures RedisAfter(pre + SetUserInstrs(u), u.id, v.redis) == Some(UserJson(u))
  {
    AfterSkips(pre, SetUserInstrs(u), u.id, v.local, v.redis);
    SetUserSettles(u, View(v.row, LocalAfter(pre, u.id, v.local), RedisAfter(pre, u.id, v.redis)));
  }

  lemma DeleteSettles(id: Uuid, v: View)
    ensures WillSettle(DelUserInstrs(id) + [Bump], id, v)
    ensures LocalAfter(DelUserInstrs(id) + [Bump], id, v.local) == None
    ensures RedisAfter(DelUserInstrs(id) + [Bump], id, v.redis) == None
  {
    var todo := DelUserInstrs(id) + [Bump];
    assert todo[1..] == [RedisDel(UserK(id)), Bump];
    assert todo[1..][1..] == [Bump];
    assert [Bump][1..] == [];
    assert LocalAfter([Bump], id, None) == None && RedisAfter([Bump], id, None) == None;
    assert LocalAfter(todo[1..], id, None) == None && RedisAfter(todo[1..], id, v.redis) == None;
  }

  lemma CreateKeeps(s: State, tid: nat, c: Choice)
    requires Inv(s) && tid in s.threads && (s.threads[tid].CreateStart? || s.threads[tid].CreateRepo?)
    requires s.threads[tid].CreateStart? ==> !Busy(s, c.id)
    ensures Inv(CreateStep(s, tid, c))
  {
    hide *;
    if s.threads[tid].CreateStart? {
      CreateStartKeeps(s, tid, c);
    } else {
      CreateRepoKeeps(s, tid, c);
    }
  }

  lemma CreateStartKeeps(s: State, tid: nat, c: Choice)
    requires Inv(s) && tid in s.threads && s.threads[tid].CreateStart? && !Busy(s, c.id)
    ensures Inv(CreateStep(s, tid, c))
  {
    hide Inv, LocalAfter, RedisAfter, NewUser;
    Facts(s, tid);
    var th, s' := s.threads[tid], CreateStep(s, tid, c);
    var r := NewUser(s.addressOk, th.name, th.email, c.id, s.clock);
    if r.Ok? {
      NewUserShape(s.addressOk, th.name, th.email, c.id, s.clock);
      WorkerArrives(s, s', tid, c.id);
    } else {
      BystanderMoves(s, s', tid);
    }
  }

  lemma CreateRepoKeeps(s: State, tid: nat, c: Choice)
    requires Inv(s) && tid in s.threads && s.threads[tid].CreateRepo?
    ensures Inv(CreateStep(s, tid, c))
  {
    hide Inv, LocalAfter, RedisAfter, NewUser;
    Facts(s, tid);
    var th, s' := s.threads[tid], CreateStep(s, tid, c);
    var u, cur := th.user, s.hist[s.Now()];
    if !c.fail && u.id !in cur.rows {
      WriteThenSetSettles([Bump], u, ViewOf(s', u.id));
    }
    CallMoves(s, s', tid, u.id);
  }

  lemma NewUserShape(addressOk: string -> bool, name: string, email: string, id: Uuid, now: Time)
    requires NewUser(addressOk, name, email, id, now).Ok?
    ensures var u := NewUser(addressOk, name, email, id, now).value; u.id == id && u.Live()
  {
  }

  /** A call that has just drawn a fresh id becomes its worker. */
  lemma WorkerArrives(s: State, s': State, tid: nat, id: Uuid)
    requires Inv(s) && |s'.hist| > 0 && s'.calls == s.calls && s'.Rows() == s.Rows()
    requires tid in s.threads && tid in s'.threads && s'.threads == s.threads[tid := s'.threads[tid]]
    requires forall x :: ViewOf(s', x) == ViewOf(s, x)
    requires Subject(s.calls[tid], s.threads[tid]) == None && !Busy(s, id)
    requires Subject(s.calls[tid], s'.threads[tid]) == Some(id)
    requires StageOk(s.calls[tid], s'.threads[tid])
    requires s'.threads[tid].CreateRepo? && s'.threads[tid].user.id == id && s'.threads[tid].user.Live()
    ensures Inv(s')
  {
    assert CallOk(s.calls[tid], id, ViewOf(s', id), s'.threads[tid]);
    assert forall x :: x in s.threads && x in s.calls ==> Subject(s.calls[x], s.threads[x]) != Some(id);
    hide Settled, WorkerOk, ReaderOk, CallOk, ViewOf, StageOk, Subject;
    forall x, y | x in s'.threads && y in s'.threads && x != y && Shared(s', x, y)
      ensures s'.calls[x].request.Get? && s'.calls[y].request.Get?
    {
      assert x != tid && y != tid ==> Shared(s, x, y);
    }
    forall x | !Busy(s', x)
      ensures Settled(ViewOf(s', x))
    {
      if Busy(s, x) {
        BusyElsewhere(s, s', tid, x);
      }
    }
  }

  lemma UpdateKeeps(s: State, tid: nat, c: Choice)
    requires Inv(s) && tid in s.threads
    requires s.threads[tid].UpdateRead? || s.threads[tid].UpdateEdit?
    ensures Inv(UpdateStep(s, tid, c))
  {
    hide Inv, LocalAfter, RedisAfter, ChangedUser;
    Facts(s, tid);
    var th := s.threads[tid];
    if th.UpdateEdit? {
      ChangedUserShape(s.addressOk, th.user, th.newName, th.newEmail, s.clock);
    }
    CallMoves(s, UpdateStep(s, tid, c), tid, s.calls[tid].request.id);
  }

  lemma UpdateRepoKeeps(s: State, tid: nat, c: Choice)
    requires Inv(s) && tid in s.threads && s.threads[tid].UpdateRepo?
    ensures Inv(UpdateStep(s, tid, c))
  {
    hide Inv, LocalAfter, RedisAfter;
    Facts(s, tid);
    var u, s' := s.threads[tid].user, UpdateStep(s, tid, c);
    if !c.fail && IsLive(s.Rows(), u.id) {
      WriteThenSetSettles(DelUserInstrs(u.id) + [Bump], u, ViewOf(s', u.id));
      assert s'.Rows() == s.Rows()[u.id := u];
    }
    CallMoves(s, s', tid, u.id);
  }

  lemma ChangedUserShape(addressOk: string -> bool, u: User, name: Option<string>, email: Option<string>, now: Time)
    ensures var r := ChangedUser(addressOk, u, name, email, now);
            r.Ok? ==> r.value.id == u.id && r.value.deletedAt == u.deletedAt
  {
  }

  lemma DeleteCommits(s: State, tid: nat, c: Choice)
    requires Inv(s) && tid in s.threads && s.threads[tid].DeleteRepo? && !c.fail
    requires |s.hist| > 0 && IsLive(s.Rows(), s.threads[tid].id)
    ensures Inv(DeleteStep(s, tid, c))
  {
    hide Inv, LocalAfter, RedisAfter, ReaderOk;
    Facts(s, tid);
    var id, s' := s.threads[tid].id, DeleteStep(s, tid, c);
    DeleteSettles(id, ViewOf(s', id));
    CallMoves(s, s', tid, id);
  }

  lemma DeleteKeeps(s: State, tid: nat, c: Choice)
    requires Inv(s) && tid in s.threads && s.threads[tid].DeleteRepo?
    ensures Inv(DeleteStep(s, tid, c))
  {
    hide Inv, LocalAfter, RedisAfter;
    Facts(s, tid);
    var id := s.threads[tid].id;
    if !c.fail && IsLive(s.Rows(), id) {
      DeleteCommits(s, tid, c);
    } else {
      GotoKeeps(s, tid, id, DeleteStep(s, tid, c).threads[tid]);
    }
  }

  lemma ListAdvances(s: State, tid: nat, c: Choice)
    requires |s.hist| > 0 && tid in s.threads && tid in s.calls && StageOk(s.calls[tid], s.threads[tid])
    requires var th := s.threads[tid]; th.ListStart? || th.ListLocal? || th.ListRedis? || th.ListRepo?
    ensures var s' := ListStep(s, tid, c);
            && s' == Goto(s, tid, s'.threads[tid])
            && Subject(s.calls[tid], s.threads[tid]) == None == Subject(s.calls[tid], s'.threads[tid])
            && StageOk(s.calls[tid], s'.threads[tid])
  {
  }

  lemma ListKeeps(s: State, tid: nat, c: Choice)
    requires Inv(s) && tid in s.threads
    requires var th := s.threads[tid]; th.ListStart? || th.ListLocal? || th.ListRedis? || th.ListRepo?
    ensures Inv(ListStep(s, tid, c))
  {
    hide Inv;
    Facts(s, tid);
    ListAdvances(s, tid, c);
    hide Settled, ListStep, StageOk;
    BystanderMoves(s, ListStep(s, tid, c), tid);
  }

  lemma ListHasNoSubject(info: CallInfo, th: Thread)
    ensures info.request.List? ==> Subject(info, th) == None
  {
  }

  lemma RunningKeeps(s: State, tid: nat, c: Choice)
    requires Inv(s) && tid in s.threads && s.threads[tid].Running?
    requires tid in s.calls && (Writes(s.calls[tid].request) ==> !c.fail)
    ensures Inv(RunStep(s, tid, c))
  {
    hide Inv, LocalAfter, RedisAfter, Subject, ViewOf, StageOk, WorkerOk;
    Facts(s, tid);
    ListHasNoSubject(s.calls[tid], s.threads[tid]);
    if Subject(s.calls[tid], s.threads[tid]).Some? {
      WorkerRuns(s, tid, c);
    } else {
      BystanderRuns(s, tid, c);
    }
  }

  lemma WorkerRuns(s: State, tid: nat, c: Choice)
    requires Inv(s) && tid in s.threads && s.threads[tid].Running?
    requires tid in s.calls && Subject(s.calls[tid], s.threads[tid]).Some?
    requires s.calls[tid].request.Get? || !c.fail
    ensures Inv(RunStep(s, tid, c))
  {
    if s.threads[tid].todo == [] {
      hide Inv;
      Facts(s, tid);
      CallMoves(s, RunStep(s, tid, c), tid, Subject(s.calls[tid], s.threads[tid]).value);
    } else if s.calls[tid].request.Get? {
      NextStore(s, tid, c);
    } else {
      NextInstruction(s, tid, c);
    }
  }

  /** A Get stores the live row in one tier, or Redis refuses it. */
  lemma NextStore(s: State, tid: nat, c: Choice)
    requires Inv(s) && tid in s.threads && s.threads[tid].Running? && s.threads[tid].todo != []
    requires tid in s.calls && s.calls[tid].request.Get?
    ensures Inv(RunStep(s, tid, c))
  {
    hide Inv;
    Facts(s, tid);
    var th, id := s.threads[tid], s.calls[tid].request.id;
    assert Stores(th.todo[0], id, ViewOf(s, id).row);
    assert forall i :: i in th.todo[1..] ==> i in th.todo;
    hide WorkerOk;
    CallMoves(s, RunStep(s, tid, c), tid, id);
  }

  lemma NextInstruction(s: State, tid: nat, c: Choice)
    requires Inv(s) && tid in s.threads && s.threads[tid].Running? && !c.fail && s.threads[tid].todo != []
    requires tid in s.calls && Subject(s.calls[tid], s.threads[tid]).Some? && !s.calls[tid].request.Get?
    ensures Inv(RunStep(s, tid, c))
  {
    hide Inv, ReaderOk;
    Facts(s, tid);
    var th, s' := s.threads[tid], RunStep(s, tid, c);
    var id := Subject(s.calls[tid], th).value;
    assert Touches(th.todo[0], id);
    assert forall i :: i in th.todo[1..] ==> i in th.todo;
    OneInstruction(s, th.todo[0], id);
    CallMoves(s, s', tid, id);
  }

  /** An instruction on `id` changes only the view of `id`, and that as the After functions say. */
  lemma OneInstruction(s: State, i: Instr, id: Uuid)
    requires |s.hist| > 0 && Touches(i, id)
    ensures var s' := Exec(s, i, false);
            && s'.hist == s.hist
            && (forall x :: x != id ==> ViewOf(s', x) == ViewOf(s, x))
            && ViewOf(s', id) == View(Lookup(s.Rows(), id), LocalAfter([i], id, ViewOf(s, id).local),
                                      RedisAfter([i], id, ViewOf(s, id).redis))
  {
  }

  lemma BystanderRuns(s: State, tid: nat, c: Choice)
    requires Inv(s) && tid in s.threads && s.threads[tid].Running?
    requires tid in s.calls && Subject(s.calls[tid], s.threads[tid]) == None
    ensures Inv(RunStep(s, tid, c))
  {
    hide Inv, LocalAfter, RedisAfter, WorkerOk;
    Facts(s, tid);
    var th := s.threads[tid];
    assert th.todo != [] ==> ListsOnly(th.todo[0]) && forall i :: i in th.todo[1..] ==> i in th.todo;
    BystanderMoves(s, RunStep(s, tid, c), tid);
  }

  /** A new call takes no other call's id away. */
  lemma BusyAfterBegin(s: State, tid: nat, r: Request, id: Uuid)
    requires |s.hist| > 0 && tid !in s.threads && Busy(s, id)
    ensures Busy(Apply(s, Begin(tid, r)), id)
  {
    var s' := Apply(s, Begin(tid, r));
    var y :| y in s.threads && y in s.calls && Subject(s.calls[y], s.threads[y]) == Some(id);
    assert s'.threads[y] == s.threads[y] && s'.calls[y] == s.calls[y];
  }

  /** An id no write is working on is settled, even while it is being read. */
  lemma UnwrittenIsSettled(s: State, id: Uuid)
    requires Inv(s) && !Written(s, id)
    ensures Settled(ViewOf(s, id))
  {
    if Busy(s, id) {
      var x :| x in s.threads && x in s.calls && Subject(s.calls[x], s.threads[x]) == Some(id);
      assert CallOk(s.calls[x], id, ViewOf(s, id), s.threads[x]);
    }
  }

  lemma SettledAtBegin(s: State, r: Request)
    requires Inv(s) && RequestId(r).Some?
    requires if r.Get? then !Written(s, r.id) else !Busy(s, RequestId(r).value)
    ensures Settled(ViewOf(s, RequestId(r).value))
  {
    UnwrittenIsSettled(s, RequestId(r).value);
  }

  lemma NewCallStarts(s: State, tid: nat, r: Request)
    requires Inv(s) && tid !in s.threads && Disciplined(s, Begin(tid, r))
    ensures var s' := Apply(s, Begin(tid, r));
            && Subject(s'.calls[tid], s'.threads[tid]) == RequestId(r)
            && StageOk(s'.calls[tid], s'.threads[tid])
            && (forall id :: ViewOf(s', id) == ViewOf(s, id))
            && (RequestId(r).Some? ==>
                  CallOk(s'.calls[tid], RequestId(r).value, ViewOf(s', RequestId(r).value), s'.threads[tid]))
  {
    if RequestId(r).Some? {
      SettledAtBegin(s, r);
    }
  }

  /** A new call shares its id only as a Get, and only with Gets. */
  lemma NewCallShares(s: State, tid: nat, r: Request)
    requires Inv(s) && tid !in s.threads && Disciplined(s, Begin(tid, r))
    ensures var s' := Apply(s, Begin(tid, r));
            s'.threads.Keys == s'.calls.Keys
            && forall x, y :: x in s'.threads && y in s'.threads && x != y && Shared(s', x, y) ==>
              s'.calls[x].request.Get? && s'.calls[y].request.Get?
  {
    var s' := Apply(s, Begin(tid, r));
    assert Subject(s'.calls[tid], s'.threads[tid]) == RequestId(r);
    assert !r.Get? && RequestId(r).Some? ==> !Busy(s, RequestId(r).value);
    assert !r.Get? && RequestId(r).Some? ==>
      forall z :: z in s.threads ==> Subject(s.calls[z], s.threads[z]) != RequestId(r);
    hide Subject, ViewOf, CallOk, StageOk, Settled, FirstStage;
    forall x, y | x in s'.threads && y in s'.threads && x != y && Shared(s', x, y)
      ensures s'.calls[x].request.Get? && s'.calls[y].request.Get?
    {
      if x != tid && y != tid {
        assert Shared(s, x, y);
      }
    }
  }

  lemma BeginKeeps(s: State, tid: nat, r: Request)
    requires Inv(s) && tid !in s.threads && Disciplined(s, Begin(tid, r))
    ensures Inv(Apply(s, Begin(tid, r)))
  {
    var s' := Apply(s, Begin(tid, r));
    NewCallStarts(s, tid, r);
    hide Subject, ViewOf, WorkerOk, ReaderOk, CallOk, StageOk, Settled, FirstStage;
    NewCallShares(s, tid, r);
    forall id | !Busy(s', id)
      ensures Settled(ViewOf(s', id))
    {
      if Busy(s, id) {
        BusyAfterBegin(s, tid, r, id);
      }
    }
  }

  lemma StepKeeps(s: State, a: Action)
    requires Inv(s) && Enabled(s, a) && Disciplined(s, a)
    ensures Inv(Apply(s, a))
  {
    match a
    case Begin(tid, r) => BeginKeeps(s, tid, r);
    case Advance(tid, c) =>
      hide Inv, CreateStep, GetStep, UpdateStep, DeleteStep, ListStep, RunStep;
      var th := s.threads[tid];
      if th.CreateStart? || th.CreateRepo? {
        CreateKeeps(s, tid, c);
      } else if th.GetLocal? || th.GetRedis? || th.GetRepo? {
        GetKeeps(s, tid, c);
      } else if th.UpdateRead? || th.UpdateEdit? || th.UpdateRepo? {
        if th.UpdateRepo? { UpdateRepoKeeps(s, tid, c); } else { UpdateKeeps(s, tid, c); }
      } else if th.DeleteRepo? {
        DeleteKeeps(s, tid, c);
      } else if th.Running? {
        RunningKeeps(s, tid, c);
      } else {
        ListKeeps(s, tid, c);
      }
    case Evict(lostLocal, lostRedis) => EvictKeeps(s, lostLocal, lostRedis);
    case Tick(now) => TickKeeps(s, now);
  }

  /** The states agree on everything the invariant reads. */
  ghost predicate SameWork(s: State, s': State) {
    && |s.hist| > 0 && s'.hist == s.hist && s'.threads == s.threads && s'.calls == s.calls
    && s'.local == s.local && s'.redis == s.redis
  }

  lemma SameStores(s: State, s': State)
    requires SameWork(s, s')
    ensures forall id :: ViewOf(s', id) == ViewOf(s, id) && (Busy(s', id) <==> Busy(s, id))
    ensures forall x, y :: x in s.threads && y in s.threads && s.threads.Keys == s.calls.Keys ==>
              (Shared(s', x, y) <==> Shared(s, x, y))
  {
  }

  lemma TickKeeps(s: State, now: Time)
    requires Inv(s)
    ensures Inv(s.(clock := now))
  {
    var s' := s.(clock := now);
    SameStores(s, s');
    hide Shared, ViewOf, Busy, CallOk, StageOk, Subject, Settled;
  }

  // ----- whole runs -----

  /** Whatever user entries the process finds when it starts, they agree with the table. */
  ghost predicate StartsSettled(s: State) {
    |s.hist| > 0 && forall id :: Settled(ViewOf(s, id))
  }

  lemma {:induction false} RunKeeps(states: seq<State>, acts: seq<Action>, n: nat)
    requires IsRun(states, acts) && Init(states[0]) && StartsSettled(states[0]) && n <= |acts|
    requires forall i :: 0 <= i < |acts| ==> Disciplined(states[i], acts[i])
    ensures Inv(states[n])
  {
    if n > 0 {
      RunKeeps(states, acts, n - 1);
      assert Follows(states, acts, n - 1);
      StepKeeps(states[n - 1], acts[n - 1]);
    }
  }

  /**
   * Per-id coherence: in every disciplined run, an id no write is working on is cached, in either tier,
   * only if it is live, and then as exactly its current row, even while Gets of it are in flight.
   */
  lemma IdleIdsAreCoherent(states: seq<State>, acts: seq<Action>, id: Uuid)
    requires IsRun(states, acts) && Init(states[0]) && StartsSettled(states[0])
    requires forall i :: 0 <= i < |acts| ==> Disciplined(states[i], acts[i])
    requires !Written(states[|acts|], id)
    ensures var s := states[|acts|];
            && |s.hist| > 0
            && (UserK(id) in s.local ==> IsLive(s.Rows(), id) && s.local[UserK(id)] == UserJson(s.Rows()[id]))
            && (UserK(id) in s.redis ==> IsLive(s.Rows(), id) && s.redis[UserK(id)] == UserJson(s.Rows()[id]))
  {
    RunKeeps(states, acts, |acts|);
    UnwrittenIsSettled(states[|acts|], id);
  }

  /** What one step of thread `tid` returned, if that is a user. */
  ghost predicate ReturnsUser(s: State, s': State, tid: nat, u: User) {
    && tid in s.threads && !s.threads[tid].Returned?
    && tid in s'.threads && s'.threads[tid] == Returned(UserReply(u))
  }

  /**
   * In a disciplined run every user a Create, Get or Update call returns is, at the step it returns,
   * the current live row, whether it came from a cache or not.
   */
  lemma RepliesAreCurrent(states: seq<State>, acts: seq<Action>, n: nat, tid: nat, u: User)
    requires IsRun(states, acts) && Init(states[0]) && StartsSettled(states[0])
    requires n < |acts| && acts[n].Advance? && acts[n].tid == tid
    requires forall i :: 0 <= i < |acts| ==> Disciplined(states[i], acts[i])
    requires ReturnsUser(states[n], states[n + 1], tid, u)
    requires tid in states[n].calls && !states[n].calls[tid].request.List?
    ensures |states[n + 1].hist| > 0 && GetRow(states[n + 1].Rows(), u.id) == Ok(u)
  {
    hide Inv, Step, Disciplined;
    RunKeeps(states, acts, n);
    assert Follows(states, acts, n);
    assert Disciplined(states[n], acts[n]);
    ReplyIsCurrent(states[n], tid, acts[n].c, u);
  }

  lemma ReplyIsCurrent(s: State, tid: nat, c: Choice, u: User)
    requires Inv(s) && |s.hist| > 0 && Disciplined(s, Advance(tid, c))
    requires tid in s.threads && ReturnsUser(s, Step(s, tid, c), tid, u)
    requires tid in s.calls && !s.calls[tid].request.List?
    ensures |Step(s, tid, c).hist| > 0 && GetRow(Step(s, tid, c).Rows(), u.id) == Ok(u)
  {
    hide Inv, LocalAfter, RedisAfter, CreateStep, GetStep, UpdateStep, DeleteStep, ListStep, RunStep;
    Facts(s, tid);
    var th := s.threads[tid];
    if th.Running? {
      RunReply(s, tid, c, u);
    } else if th.GetLocal? {
      HitReply(s, tid, c, u);
    } else {
      NoUserReply(s, tid, c, u);
      assert false;
    }
  }

  lemma RunReply(s: State, tid: nat, c: Choice, u: User)
    requires Inv(s) && tid in s.threads && s.threads[tid].Running? && |s.hist| > 0
    requires ReturnsUser(s, RunStep(s, tid, c), tid, u) && tid in s.calls && !s.calls[tid].request.List?
    ensures RunStep(s, tid, c).hist == s.hist && GetRow(s.Rows(), u.id) == Ok(u)
  {
  }

  lemma HitReply(s: State, tid: nat, c: Choice, u: User)
    requires Inv(s) && tid in s.threads && s.threads[tid].GetLocal? && |s.hist| > 0
    requires ReturnsUser(s, GetStep(s, tid, c), tid, u)
    ensures GetStep(s, tid, c).hist == s.hist && GetRow(s.Rows(), u.id) == Ok(u)
  {
  }

  /** Every other stage returns no user. */
  lemma NoUserReply(s: State, tid: nat, c: Choice, u: User)
    requires |s.hist| > 0 && tid in s.threads && !s.threads[tid].Running? && !s.threads[tid].GetLocal?
    ensures !ReturnsUser(s, Step(s, tid, c), tid, u)
  {
  }
}

/**
 * The caching decorator as a concurrent protocol: any number of calls in flight, each a sequence
 * of atomic steps, over one repository, one version counter and the two cache tiers.
 */
module Protocol {
  import opened Core
  import opened Paging
  import opened Table
  import opened Service
  import Keys
  import opened CachedService

  datatype Key = UserK(id: Uuid) | ListK(ver: nat, page: int64, size: int64)

  /** The string under which an entry is stored. */
  function KeyText(k: Key): string {
    match k
    case UserK(id) => Keys.UserKey(id)
    case ListK(ver, page, size) => Keys.ListKey(ver, page, size)
  }

  /** Entries may be told apart by `Key` because their strings never collide. */
  lemma KeyTextInjective(a: Key, b: Key)
    ensures KeyText(a) == KeyText(b) <==> a == b
  {
    match (a, b)
    case (UserK(x), UserK(y)) => Keys.UserKeyInjective(x, y);
    case (ListK(v, p, s), ListK(v', p', s')) => Keys.ListKeyInjective(v, p, s, v', p', s');
    case (UserK(x), ListK(v, p, s)) => Keys.KeysDisjoint(x, v, p, s);
    case (ListK(v, p, s), UserK(x)) => Keys.KeysDisjoint(x, v, p, s);
  }

  datatype Request =
    | Create(name: string, email: string)
    | Get(id: Uuid)
    | Update(id: Uuid, newName: Option<string>, newEmail: Option<string>)
    | Delete(id: Uuid)
    | List(page: int64, size: int64)

  datatype Reply =
    | UserReply(user: User)
    | DeletedReply
    | ListReply(users: seq<User>, total: int)
    | Failed(error: Error)
    | Crashed

  /** Cache instructions a call still has to execute, one atomic step each. */
  datatype Instr =
    | LocalSet(key: Key, val: Payload)
    | RedisSet(key: Key, val: Payload)
    | LocalDel(key: Key)
    | RedisDel(key: Key)
    | Bump

  /** Where a call is between two of its atomic steps. */
  datatype Thread =
    | CreateStart(name: string, email: string)
    | CreateRepo(user: User)
    | GetLocal(id: Uuid)
    | GetRedis(id: Uuid)
    | GetRepo(id: Uuid)
    | UpdateRead(id: Uuid, newName: Option<string>, newEmail: Option<string>)
    | UpdateEdit(user: User, newName: Option<string>, newEmail: Option<string>)
    | UpdateRepo(user: User)
    | DeleteRepo(id: Uuid)
    | ListStart(page: int64, size: int64)
    | ListLocal(ver: nat, page: int64, size: int64)
    | ListRedis(ver: nat, page: int64, size: int64)
    | ListRepo(ver: nat, page: int64, size: int64)
    | Running(todo: seq<Instr>, reply: Reply, mutation: Option<nat>)
    | Returned(reply: Reply)

  /** What was asked, and which mutations belonged to calls that had already returned by then. */
  datatype CallInfo = CallInfo(request: Request, seen: set<nat>)

  /** A committed table, and how many calls have created and deleted rows since the start. */
  datatype Snapshot = Snapshot(rows: Rows, creates: nat, deletes: nat)

  datatype State = State(
    addressOk: string -> bool,
    hist: seq<Snapshot>,        // every committed table, oldest first; the last one is current
    ver: nat,                   // version bumps so far; the uint64 holds Counter(ver)
    reached: seq<nat>,          // reached[v]: the current index of hist when version v was reached
    local: map<Key, Payload>,
    redis: map<Key, Payload>,
    threads: map<nat, Thread>,
    calls: map<nat, CallInfo>,
    returned: set<nat>,         // mutations whose call has returned
    clock: Time)
  {
    function Now(): nat
      requires |hist| > 0
    {
      |hist| - 1
    }

    function Rows(): Rows
      requires |hist| > 0
    {
      hist[|hist| - 1].rows
    }
  }

  /**
   * A process starts: the table and the user entries are whatever they are, the version is 0, and no
   * list entry is cached, in particular none at or above that version.
   */
  ghost predicate Init(s: State) {
    && |s.hist| == 1 && WellKeyed(s.hist[0].rows) && s.hist[0].creates == s.hist[0].deletes == 0
    && s.ver == 0 && s.reached == [0]
    && (forall k :: k in s.local || k in s.redis ==> k.UserK?)
    && s.threads == map[] && s.calls == map[] && s.returned == {}
  }

  /** What the environment chooses for one step: a fresh id, the order a listing came out in, a failure. */
  datatype Choice = Choice(id: Uuid, out: Outcome<User>, fail: bool)

  datatype Action =
    | Begin(tid: nat, request: Request)
    | Advance(tid: nat, c: Choice)
    | Evict(lostLocal: set<Key>, lostRedis: set<Key>)
    | Tick(now: Time)

  ghost predicate Enabled(s: State, a: Action) {
    && |s.hist| > 0
    && match a
       case Begin(tid, _) => tid !in s.threads
       case Advance(tid, c) =>
         && tid in s.threads && !s.threads[tid].Returned?
         && (s.threads[tid].ListRepo? && !c.fail ==>
               ListAllowed(s.Rows(), s.threads[tid].page, s.threads[tid].size, c.out))
       case Evict(_, _) => true
       case Tick(now) => now >= s.clock
  }

  // ----- the steps -----

  function FirstStage(r: Request): Thread {
    match r
    case Create(name, email) => CreateStart(name, email)
    case Get(id) => GetLocal(id)
    case Update(id, name, email) => UpdateRead(id, name, email)
    case Delete(id) => DeleteRepo(id)
    case List(page, size) => ListStart(page, size)
  }

  function Goto(s: State, tid: nat, th: Thread): State {
    s.(threads := s.threads[tid := th])
  }

  function SetUserInstrs(u: User): seq<Instr> {
    [LocalSet(UserK(u.id), UserJson(u)), RedisSet(UserK(u.id), UserJson(u))]
  }

  function DelUserInstrs(id: Uuid): seq<Instr> {
    [LocalDel(UserK(id)), RedisDel(UserK(id))]
  }

  /** A repository write that took effect; the caller has the rest of the method still to do. */
  function Commit(s: State, tid: nat, next: Snapshot, todo: seq<Instr>, reply: Reply): State {
    s.(hist := s.hist + [next], threads := s.threads[tid := Running(todo, reply, Some(|s.hist|))])
  }

  function Exec(s: State, i: Instr, fail: bool): State
    requires |s.hist| > 0
  {
    match i
    case LocalSet(k, v) => s.(local := s.local[k := v])
    case RedisSet(k, v) => if fail then s else s.(redis := s.redis[k := v])
    case LocalDel(k) => s.(local := s.local - {k})
    case RedisDel(k) => if fail then s else s.(redis := s.redis - {k})
    case Bump => s.(ver := s.ver + 1, reached := s.reached + [s.Now()])
  }

  /** Create up to and including the repository call. */
  function CreateStep(s: State, tid: nat, c: Choice): (s': State)
    requires |s.hist| > 0 && tid in s.threads
    requires s.threads[tid].CreateStart? || s.threads[tid].CreateRepo?
    ensures s'.ver >= s.ver
  {
    var cur := s.hist[s.Now()];
    match s.threads[tid]
    case CreateStart(name, email) =>
      (match NewUser(s.addressOk, name, email, c.id, s.clock)
       case Err(e) => Goto(s, tid, Returned(Failed(e)))
       case Ok(u) => Goto(s, tid, CreateRepo(u)))
    case CreateRepo(u) =>
      if c.fail then Goto(s, tid, Returned(Failed(Storage)))
      else
        match CreateRow(cur.rows, u)
        case Err(e) => Goto(s, tid, Returned(Failed(e)))
        case Ok(t') =>
          Commit(s, tid, Snapshot(t', cur.creates + 1, cur.deletes), [Bump] + SetUserInstrs(u), UserReply(u))
  }

  /** Get: local tier, Redis tier, repository. */
  function GetStep(s: State, tid: nat, c: Choice): (s': State)
    requires |s.hist| > 0 && tid in s.threads
    requires s.threads[tid].GetLocal? || s.threads[tid].GetRedis? || s.threads[tid].GetRepo?
    ensures s'.ver >= s.ver
  {
    match s.threads[tid]
    case GetLocal(id) =>
      if UserK(id) in s.local && s.local[UserK(id)].UserJson?
      then Goto(s, tid, Returned(UserReply(s.local[UserK(id)].user)))
      else Goto(s, tid, GetRedis(id))
    case GetRedis(id) =>
      if !c.fail && UserK(id) in s.redis && s.redis[UserK(id)].UserJson?
      then
        var v := s.redis[UserK(id)];
        Goto(s, tid, Running([LocalSet(UserK(id), v)], UserReply(v.user), None))
      else Goto(s, tid, GetRepo(id))
    case GetRepo(id) =>
      if c.fail then Goto(s, tid, Returned(Failed(Storage)))
      else
        match GetRow(s.Rows(), id)
        case Err(e) => Goto(s, tid, Returned(Failed(e)))
        case Ok(u) => Goto(s, tid, Running(SetUserInstrs(u), UserReply(u), None))
  }

  /** Update: read, edit, write back; other calls may run in between. */
  function UpdateStep(s: State, tid: nat, c: Choice): (s': State)
    requires |s.hist| > 0 && tid in s.threads
    requires s.threads[tid].UpdateRead? || s.threads[tid].UpdateEdit? || s.threads[tid].UpdateRepo?
    ensures s'.ver >= s.ver
  {
    var cur := s.hist[s.Now()];
    match s.threads[tid]
    case UpdateRead(id, name, email) =>
      if c.fail then Goto(s, tid, Returned(Failed(Storage)))
      else
        (match GetRow(cur.rows, id)
         case Err(e) => Goto(s, tid, Returned(Failed(e)))
         case Ok(u) => Goto(s, tid, UpdateEdit(u, name, email)))
    case UpdateEdit(u, name, email) =>
      (match ChangedUser(s.addressOk, u, name, email, s.clock)
       case Err(e) => Goto(s, tid, Returned(Failed(e)))
       case Ok(u') => Goto(s, tid, UpdateRepo(u')))
    case UpdateRepo(u) =>
      if c.fail then Goto(s, tid, Returned(Failed(Storage)))
      else
        match UpdateRow(cur.rows, u)
        case Err(e) => Goto(s, tid, Returned(Failed(e)))
        case Ok(t') =>
          Commit(s, tid, Snapshot(t', cur.creates, cur.deletes),
                 DelUserInstrs(u.id) + [Bump] + SetUserInstrs(u), UserReply(u))
  }

  function DeleteStep(s: State, tid: nat, c: Choice): (s': State)
    requires |s.hist| > 0 && tid in s.threads && s.threads[tid].DeleteRepo?
    ensures s'.ver >= s.ver
  {
    var cur, id := s.hist[s.Now()], s.threads[tid].id;
    if c.fail then Goto(s, tid, Returned(Failed(Storage)))
    else
      match DeleteRow(cur.rows, id, s.clock)
      case Err(e) => Goto(s, tid, Returned(Failed(e)))
      case Ok(t') =>
        Commit(s, tid, Snapshot(t', cur.creates, cur.deletes + 1), DelUserInstrs(id) + [Bump], DeletedReply)
  }

  /** List: load the version once, then local tier, Redis tier, repository. */
  function ListStep(s: State, tid: nat, c: Choice): (s': State)
    requires |s.hist| > 0 && tid in s.threads
    requires var th := s.threads[tid]; th.ListStart? || th.ListLocal? || th.ListRedis? || th.ListRepo?
    ensures s'.ver >= s.ver
  {
    match s.threads[tid]
    case ListStart(page, size) => Goto(s, tid, ListLocal(Counter(s.ver), page, size))
    case ListLocal(v, page, size) =>
      var k := ListK(v, page, size);
      if k in s.local && s.local[k].ListJson?
      then Goto(s, tid, Returned(ListReply(s.local[k].users, s.local[k].total)))
      else Goto(s, tid, ListRedis(v, page, size))
    case ListRedis(v, page, size) =>
      var k := ListK(v, page, size);
      if !c.fail && k in s.redis && s.redis[k].ListJson?
      then Goto(s, tid, Running([LocalSet(k, s.redis[k])], ListReply(s.redis[k].users, s.redis[k].total), None))
      else Goto(s, tid, ListRepo(v, page, size))
    case ListRepo(v, page, size) =>
      if c.fail then Goto(s, tid, Returned(Failed(Storage)))
      else
        match c.out
        case Panics => Goto(s, tid, Returned(Crashed))
        case Page(users, total) =>
          var k, val := ListK(v, page, size), ListJson(users, total);
          Goto(s, tid, Running([LocalSet(k, val), RedisSet(k, val)], ListReply(users, total), None))
  }

  /** The next cache instruction, or the return. */
  function RunStep(s: State, tid: nat, c: Choice): (s': State)
    requires |s.hist| > 0 && tid in s.threads && s.threads[tid].Running?
    ensures s'.ver >= s.ver
  {
    var Running(todo, reply, mutation) := s.threads[tid];
    if todo == []
    then Goto(s, tid, Returned(reply)).(returned := if mutation.Some? then s.returned + {mutation.value}
        else s.returned)
    else Goto(Exec(s, todo[0], c.fail), tid, Running(todo[1..], reply, mutation))
  }

  function Step(s: State, tid: nat, c: Choice): (s': State)
    requires |s.hist| > 0 && tid in s.threads
    ensures s'.ver >= s.ver
  {
    var th := s.threads[tid];
    if th.CreateStart? || th.CreateRepo? then CreateStep(s, tid, c)
    else if th.GetLocal? || th.GetRedis? || th.GetRepo? then GetStep(s, tid, c)
    else if th.UpdateRead? || th.UpdateEdit? || th.UpdateRepo? then UpdateStep(s, tid, c)
    else if th.DeleteRepo? then DeleteStep(s, tid, c)
    else if th.Running? then RunStep(s, tid, c)
    else if th.Returned? then s
    else ListStep(s, tid, c)
  }

  function Apply(s: State, a: Action): (s': State)
    requires |s.hist| > 0
    requires a.Advance? ==> a.tid in s.threads
    ensures s'.ver >= s.ver
  {
    match a
    case Begin(tid, r) =>
      s.(threads := s.threads[tid := FirstStage(r)], calls := s.calls[tid := CallInfo(r, s.returned)])
    case Advance(tid, c) => Step(s, tid, c)
    case Evict(lostLocal, lostRedis) => s.(local := s.local - lostLocal, redis := s.redis - lostRedis)
    case Tick(now) => s.(clock := now)
  }

  // ----- runs -----

  /** The i-th action is enabled and takes the i-th state to the next. */
  ghost predicate Follows(states: seq<State>, acts: seq<Action>, i: nat)
    requires |states| == |acts| + 1 && i < |acts|
  {
    Enabled(states[i], acts[i]) && states[i + 1] == Apply(states[i], acts[i])
  }

  /** `states` is a run of the protocol taking `acts`. */
  ghost predicate IsRun(states: seq<State>, acts: seq<Action>) {
    && |states| == |acts| + 1
    && forall i :: 0 <= i < |acts| ==> Follows(states, acts, i)
  }

  /** Taking `acts` from `s`, each enabled in turn, ends in `s'`. */
  ghost predicate Leads(s: State, acts: seq<Action>, s': State)
    decreases |acts|
  {
    if acts == [] then s == s'
    else Enabled(s, acts[0]) && Leads(Apply(s, acts[0]), acts[1..], s')
  }

  lemma {:induction false} LeadsIsRun(s: State, acts: seq<Action>, s': State) returns (states: seq<State>)
    requires Leads(s, acts, s')
    ensures IsRun(states, acts) && states[0] == s && states[|acts|] == s'
    decreases |acts|
  {
    if acts == [] {
      states := [s];
    } else {
      var rest := LeadsIsRun(Apply(s, acts[0]), acts[1..], s');
      states := [s] + rest;
      forall i | 0 <= i < |acts|
        ensures Follows(states, acts, i)
      {
        if i > 0 {
          assert Follows(rest, acts[1..], i - 1);
        }
      }
    }
  }

  lemma {:induction false} LeadsThen(s: State, x: seq<Action>, m: State, y: seq<Action>, s': State)
    requires Leads(s, x, m) && Leads(m, y, s')
    ensures Leads(s, x + y, s')
    decreases |x|
  {
    if x == [] {
      assert x + y == y;
    } else {
      assert (x + y)[1..] == x[1..] + y;
      LeadsThen(Apply(s, x[0]), x[1..], m, y, s');
    }
  }
}

/**
 * What an answer of the concurrent protocol means, in every run: whatever a call returns was decided
 * between its beginning and its return, by a step of its own that made it true.
 */
module Replies {
  import opened Core
  import opened Paging
  import opened Table
  import opened Text
  import opened Service
  import opened CachedService
  import opened Protocol
  import DataInvariant

  // ----- moments of a call -----

  /** Step i was taken by thread `tid`, after it began at step b and before state n. */
  predicate Moved(acts: seq<Action>, b: nat, i: int, n: nat, tid: nat) {
    b < i < n <= |acts| && acts[i].Advance? && acts[i].tid == tid
  }

  predicate BeganAt(acts: seq<Action>, b: nat, n: nat, tid: nat, req: Request) {
    b < n <= |acts| && acts[b] == Begin(tid, req)
  }

  ghost predicate NotLiveAt(s: State, id: Uuid) {
    |s.hist| > 0 && !IsLive(s.Rows(), id)
  }

  ghost predicate LiveAt(s: State, id: Uuid, u: User) {
    |s.hist| > 0 && IsLive(s.Rows(), id) && s.Rows()[id] == u
  }

  ghost predicate CachedAt(s: State, id: Uuid, u: User) {
    || (UserK(id) in s.local && s.local[UserK(id)] == UserJson(u))
    || (UserK(id) in s.redis && s.redis[UserK(id)] == UserJson(u))
  }

  /** The step from s to s' commits one table, which differs from the last in the row of `id` only. */
  ghost predicate Writes(s: State, s': State, id: Uuid, u: User) {
    |s.hist| > 0 && |s'.hist| == |s.hist| + 1 && s.hist <= s'.hist && s'.Rows() == s.Rows()[id := u]
  }

  ghost predicate Inserts(s: State, s': State, u: User) {
    Writes(s, s', u.id, u) && u.id !in s.Rows()
  }

  ghost predicate Replaces(s: State, s': State, u: User) {
    Writes(s, s', u.id, u) && IsLive(s.Rows(), u.id)
  }

  /** The live row of `id` gets the clock as its deletion time. */
  ghost predicate Buries(s: State, s': State, id: Uuid) {
    NotLiveAt(s', id) && |s.hist| > 0 && IsLive(s.Rows(), id)
    && Writes(s, s', id, s.Rows()[id].(deletedAt := Some(s.clock)))
  }

  /** The step's draw and clock and the request's arguments make up the new user. */
  predicate Built(s: State, a: Action, name: string, email: string, u: User) {
    && a.Advance? && u.id == a.c.id
    && !Blank(name) && u.name == TrimSpace(name) && NormalizeEmail(s.addressOk, email) == Ok(u.email)
    && u.createdAt == s.clock == u.updatedAt && u.deletedAt == None
  }

  /** `u` is `was` with just the given fields and the time replaced. */
  predicate Edited(s: State, was: User, name: Option<string>, email: Option<string>, u: User) {
    && u.id == was.id && u.createdAt == was.createdAt && u.deletedAt == was.deletedAt && u.updatedAt == s.clock
    && (if name.Some? then !Blank(name.value) && u.name == TrimSpace(name.value) else u.name == was.name)
    && (if email.Some? then NormalizeEmail(s.addressOk, email.value) == Ok(u.email) else u.email == was.email)
  }

  /** The call is about to use the repository. */
  predicate AtRepo(th: Thread) {
    th.CreateRepo? || th.GetRepo? || th.UpdateRead? || th.UpdateRepo? || th.DeleteRepo? || th.ListRepo?
  }

  ghost predicate RepoFails(s: State, a: Action) {
    a.Advance? && a.c.fail && a.tid in s.threads && AtRepo(s.threads[a.tid])
  }

  /** Some table of the moment has a listing on which the page arithmetic panics. */
  ghost predicate ListCrashes(s: State, page: int64, size: int64) {
    |s.hist| > 0 && ListAllowed(s.Rows(), page, size, Panics)
  }

  // ----- what each answer means -----

  /** A storage error: one of the call's own repository calls failed. */
  ghost predicate Broke(states: seq<State>, acts: seq<Action>, b: nat, n: nat, tid: nat) {
    |states| == |acts| + 1 && exists i :: Moved(acts, b, i, n, tid) && RepoFails(states[i], acts[i])
  }

  /** Not found: at one of the call's own steps no live row had the id. */
  ghost predicate Missed(states: seq<State>, acts: seq<Action>, b: nat, n: nat, tid: nat, id: Uuid) {
    |states| == |acts| + 1 && exists i :: Moved(acts, b, i, n, tid) && NotLiveAt(states[i], id)
  }

  ghost predicate CreateMeans(states: seq<State>, acts: seq<Action>, b: nat, n: nat, tid: nat, name: string,
                              email: string, reply: Reply)
  {
    |states| == |acts| + 1 &&
    match reply
    case UserReply(u) =>
      exists j, i :: Moved(acts, b, j, n, tid) && Moved(acts, b, i, n, tid) && j < i
                     && Built(states[j], acts[j], name, email, u) && Inserts(states[i], states[i + 1], u)
    case Failed(NameEmpty) => Blank(name)
    case Failed(EmailEmpty) => !Blank(name) && Blank(email)
    case Failed(EmailInvalid) => !Blank(name) && NormalizeEmail(states[0].addressOk, email) == Err(EmailInvalid)
    case Failed(DuplicateId) =>
      exists j, i :: Moved(acts, b, j, n, tid) && Moved(acts, b, i, n, tid) && j < i
                     && |states[i].hist| > 0 && acts[j].c.id in states[i].Rows()
    case Failed(Storage) => Broke(states, acts, b, n, tid)
    case _ => false
  }

  ghost predicate GetMeans(states: seq<State>, acts: seq<Action>, b: nat, n: nat, tid: nat, id: Uuid, reply: Reply) {
    |states| == |acts| + 1 &&
    match reply
    case UserReply(u) =>
      exists i :: Moved(acts, b, i, n, tid) && (LiveAt(states[i], id, u) || CachedAt(states[i], id, u))
    case Failed(NotFound) => Missed(states, acts, b, n, tid, id)
    case Failed(Storage) => Broke(states, acts, b, n, tid)
    case _ => false
  }

  ghost predicate UpdateMeans(states: seq<State>, acts: seq<Action>, b: nat, n: nat, tid: nat, req: Request,
                              reply: Reply)
    requires req.Update?
  {
    |states| == |acts| + 1 &&
    match reply
    case UserReply(u) =>
      && u.id == req.id
      && (exists j :: EditedBy(states, acts, b, j, n, tid, req, u))
      && (exists i :: Moved(acts, b, i, n, tid) && Replaces(states[i], states[i + 1], u))
    case Failed(NotFound) => Missed(states, acts, b, n, tid, req.id)
    case Failed(NameEmpty) => req.newName.Some? && Blank(req.newName.value)
    case Failed(EmailEmpty) => req.newEmail.Some? && Blank(req.newEmail.value)
    case Failed(EmailInvalid) =>
      req.newEmail.Some? && NormalizeEmail(states[0].addressOk, req.newEmail.value) == Err(EmailInvalid)
    case Failed(Storage) => Broke(states, acts, b, n, tid)
    case _ => false
  }

  /** At step j the call edited a user it had read, live, at an earlier step of its own. */
  ghost predicate EditedBy(states: seq<State>, acts: seq<Action>, b: nat, j: int, n: nat, tid: nat, req: Request,
                           u: User)
    requires req.Update?
  {
    |states| == |acts| + 1 && Moved(acts, b, j, n, tid)
    && exists was :: ReadBy(states, acts, b, j, tid, req.id, was)
                     && Edited(states[j], was, req.newName, req.newEmail, u)
  }

  ghost predicate ReadBy(states: seq<State>, acts: seq<Action>, b: nat, n: nat, tid: nat, id: Uuid, u: User) {
    |states| == |acts| + 1 && u.id == id && exists r :: Moved(acts, b, r, n, tid) && LiveAt(states[r], id, u)
  }

  ghost predicate DeleteMeans(states: seq<State>, acts: seq<Action>, b: nat, n: nat, tid: nat, id: Uuid, reply: Reply)
  {
    |states| == |acts| + 1 &&
    match reply
    case DeletedReply => exists i :: Moved(acts, b, i, n, tid) && Buries(states[i], states[i + 1], id)
    case Failed(NotFound) => Missed(states, acts, b, n, tid, id)
    case Failed(Storage) => Broke(states, acts, b, n, tid)
    case _ => false
  }

  /** What a List answers with a page is the subject of ListFreshness. */
  ghost predicate ListMeans(states: seq<State>, acts: seq<Action>, b: nat, n: nat, tid: nat, page: int64, size: int64,
                            reply: Reply)
  {
    |states| == |acts| + 1 &&
    match reply
    case ListReply(_, _) => true
    case Crashed => exists i :: Moved(acts, b, i, n, tid) && ListCrashes(states[i], page, size)
    case Failed(Storage) => Broke(states, acts, b, n, tid)
    case _ => false
  }

  ghost predicate Means(states: seq<State>, acts: seq<Action>, b: nat, n: nat, tid: nat, req: Request, reply: Reply) {
    match req
    case Create(name, email) => CreateMeans(states, acts, b, n, tid, name, email, reply)
    case Get(id) => GetMeans(states, acts, b, n, tid, id, reply)
    case Update(_, _, _) => UpdateMeans(states, acts, b, n, tid, req, reply)
    case Delete(id) => DeleteMeans(states, acts, b, n, tid, id, reply)
    case List(page, size) => ListMeans(states, acts, b, n, tid, page, size, reply)
  }

  // ----- what a call in flight can already account for -----

  ghost predicate StageOk(states: seq<State>, acts: seq<Action>, b: nat, n: nat, tid: nat, req: Request, th: Thread) {
    |states| == |acts| + 1 &&
    match th
    case CreateStart(name, email) => req == Create(name, email)
    case CreateRepo(u) =>
      req.Create?
      && exists j :: Moved(acts, b, j, n, tid) && Built(states[j], acts[j], req.name, req.email, u)
    case GetLocal(id) => req == Get(id)
    case GetRedis(id) => req == Get(id)
    case GetRepo(id) => req == Get(id)
    case UpdateRead(id, name, email) => req == Update(id, name, email)
    case UpdateEdit(u, name, email) =>
      req == Update(u.id, name, email) && ReadBy(states, acts, b, n, tid, u.id, u)
    case UpdateRepo(u) => req.Update? && req.id == u.id && exists j :: EditedBy(states, acts, b, j, n, tid, req, u)
    case DeleteRepo(id) => req == Delete(id)
    case ListStart(page, size) => req == List(page, size)
    case ListLocal(_, page, size) => req == List(page, size)
    case ListRedis(_, page, size) => req == List(page, size)
    case ListRepo(_, page, size) => req == List(page, size)
    case Running(_, reply, _) => Means(states, acts, b, n, tid, req, reply)
    case Returned(reply) => Means(states, acts, b, n, tid, req, reply)
  }

  /** What has been accounted for stays so. */
  lemma StageLasts(states: seq<State>, acts: seq<Action>, b: nat, n: nat, tid: nat, req: Request, th: Thread)
    requires StageOk(states, acts, b, n, tid, req, th) && n < |acts|
    ensures StageOk(states, acts, b, n + 1, tid, req, th)
  {
    hide Built, Edited, LiveAt, CachedAt, NotLiveAt, RepoFails, Inserts, Replaces, Buries, ListCrashes, Blank;
    assert forall i :: Moved(acts, b, i, n, tid) ==> Moved(acts, b, i, n + 1, tid);
    if th.UpdateRepo? || ((th.Running? || th.Returned?) && req.Update?) {
      forall j, u | EditedBy(states, acts, b, j, n, tid, req, u)
        ensures EditedBy(states, acts, b, j, n + 1, tid, req, u)
      {
      }
    }
  }

  // ----- one step of one call -----

  predicate Ends(th: Thread) {
    th.Running? || th.Returned?
  }

  ghost predicate GetGoes(s: State, a: Action, id: Uuid, th: Thread) {
    th == GetRedis(id) || th == GetRepo(id)
    || (Ends(th) &&
        match th.reply
        case UserReply(u) => LiveAt(s, id, u) || CachedAt(s, id, u)
        case Failed(NotFound) => NotLiveAt(s, id)
        case Failed(Storage) => RepoFails(s, a)
        case _ => false)
  }

  lemma GetSteps(s: State, tid: nat, c: Choice)
    requires |s.hist| > 0 && tid in s.threads
    requires var th := s.threads[tid]; th.GetLocal? || th.GetRedis? || th.GetRepo?
    ensures GetGoes(s, Advance(tid, c), s.threads[tid].id, GetStep(s, tid, c).threads[tid])
  {
  }

  ghost predicate DeleteGoes(s: State, a: Action, s': State, id: Uuid, th: Thread) {
    Ends(th) &&
    match th.reply
    case DeletedReply => Buries(s, s', id)
    case Failed(NotFound) => NotLiveAt(s, id)
    case Failed(Storage) => RepoFails(s, a)
    case _ => false
  }

  lemma DeleteSteps(s: State, tid: nat, c: Choice)
    requires |s.hist| > 0 && tid in s.threads && s.threads[tid].DeleteRepo?
    ensures var s' := DeleteStep(s, tid, c);
      DeleteGoes(s, Advance(tid, c), s', s.threads[tid].id, s'.threads[tid])
  {
  }

  ghost predicate ListGoes(s: State, a: Action, page: int64, size: int64, th: Thread) {
    ((th.ListLocal? || th.ListRedis? || th.ListRepo?) && th.page == page && th.size == size)
    || (Ends(th) &&
        match th.reply
        case ListReply(_, _) => true
        case Crashed => ListCrashes(s, page, size)
        case Failed(Storage) => RepoFails(s, a)
        case _ => false)
  }

  lemma ListSteps(s: State, tid: nat, c: Choice)
    requires Enabled(s, Advance(tid, c))
    requires var th := s.threads[tid]; th.ListStart? || th.ListLocal? || th.ListRedis? || th.ListRepo?
    ensures var th := s.threads[tid];
      ListGoes(s, Advance(tid, c), th.page, th.size, ListStep(s, tid, c).threads[tid])
  {
    hide ListAllowed;
  }

  ghost predicate CreateStarts(s: State, a: Action, name: string, email: string, th: Thread) {
    match th
    case CreateRepo(u) => Built(s, a, name, email, u)
    case Returned(Failed(NameEmpty)) => Blank(name)
    case Returned(Failed(EmailEmpty)) => !Blank(name) && Blank(email)
    case Returned(Failed(EmailInvalid)) => !Blank(name) && NormalizeEmail(s.addressOk, email) == Err(EmailInvalid)
    case _ => false
  }

  lemma CreateStartSteps(s: State, tid: nat, c: Choice)
    requires |s.hist| > 0 && tid in s.threads && s.threads[tid].CreateStart?
    ensures var th := s.threads[tid];
      CreateStarts(s, Advance(tid, c), th.name, th.email, CreateStep(s, tid, c).threads[tid])
  {
    var th := s.threads[tid];
    NewUserMeans(s.addressOk, th.name, th.email, c.id, s.clock);
    var _, _, _ := NormalizeEmailMeans(s.addressOk, th.email);
    hide NewUser, NormalizeEmail, Blank, TrimSpace;
  }

  ghost predicate CreateStores(s: State, a: Action, s': State, u: User, th: Thread) {
    Ends(th) &&
    match th.reply
    case UserReply(v) => v == u && Inserts(s, s', u)
    case Failed(DuplicateId) => |s.hist| > 0 && u.id in s.Rows()
    case Failed(Storage) => RepoFails(s, a)
    case _ => false
  }

  lemma CreateRepoSteps(s: State, tid: nat, c: Choice)
    requires |s.hist| > 0 && tid in s.threads && s.threads[tid].CreateRepo?
    ensures var s' := CreateStep(s, tid, c);
      CreateStores(s, Advance(tid, c), s', s.threads[tid].user, s'.threads[tid])
  {
  }

  ghost predicate UpdateReads(s: State, a: Action, th: Thread, th': Thread)
    requires th.UpdateRead?
  {
    match th'
    case UpdateEdit(u, name, email) => LiveAt(s, th.id, u) && name == th.newName && email == th.newEmail
    case Returned(Failed(NotFound)) => NotLiveAt(s, th.id)
    case Returned(Failed(Storage)) => RepoFails(s, a)
    case _ => false
  }

  lemma UpdateReadSteps(s: State, tid: nat, c: Choice)
    requires |s.hist| > 0 && tid in s.threads && s.threads[tid].UpdateRead?
    ensures UpdateReads(s, Advance(tid, c), s.threads[tid], UpdateStep(s, tid, c).threads[tid])
  {
  }

  ghost predicate UpdateEdits(s: State, th: Thread, th': Thread)
    requires th.UpdateEdit?
  {
    match th'
    case UpdateRepo(u) => Edited(s, th.user, th.newName, th.newEmail, u)
    case Returned(Failed(NameEmpty)) => th.newName.Some? && Blank(th.newName.value)
    case Returned(Failed(EmailEmpty)) => th.newEmail.Some? && Blank(th.newEmail.value)
    case Returned(Failed(EmailInvalid)) =>
      th.newEmail.Some? && NormalizeEmail(s.addressOk, th.newEmail.value) == Err(EmailInvalid)
    case _ => false
  }

  lemma UpdateEditSteps(s: State, tid: nat, c: Choice)
    requires |s.hist| > 0 && tid in s.threads && s.threads[tid].UpdateEdit?
    ensures UpdateEdits(s, s.threads[tid], UpdateStep(s, tid, c).threads[tid])
  {
    var th := s.threads[tid];
    ChangedUserMeans(s.addressOk, th.user, th.newName, th.newEmail, s.clock);
    if th.newEmail.Some? {
      var _, _, _ := NormalizeEmailMeans(s.addressOk, th.newEmail.value);
    }
    hide ChangedUser, NormalizeEmail, Blank, TrimSpace;
  }

  ghost predicate UpdateStores(s: State, a: Action, s': State, u: User, th: Thread) {
    Ends(th) &&
    match th.reply
    case UserReply(v) => v == u && Replaces(s, s', u)
    case Failed(NotFound) => NotLiveAt(s, u.id)
    case Failed(Storage) => RepoFails(s, a)
    case _ => false
  }

  lemma UpdateRepoSteps(s: State, tid: nat, c: Choice)
    requires |s.hist| > 0 && tid in s.threads && s.threads[tid].UpdateRepo?
    ensures var s' := UpdateStep(s, tid, c);
      UpdateStores(s, Advance(tid, c), s', s.threads[tid].user, s'.threads[tid])
  {
  }

  // ----- one step of a run -----

  /** The n-th step is the call's own. */
  ghost predicate Moving(states: seq<State>, acts: seq<Action>, b: nat, n: nat, tid: nat, req: Request) {
    && |states| == |acts| + 1 && n < |acts| && b < n && acts[n].Advance? && acts[n].tid == tid
    && Enabled(states[n], acts[n]) && states[n + 1] == Step(states[n], tid, acts[n].c)
    && WellKeyed(states[n].Rows()) && states[n].addressOk == states[0].addressOk
    && StageOk(states, acts, b, n, tid, req, states[n].threads[tid])
  }

  ghost predicate Moves(states: seq<State>, acts: seq<Action>, b: nat, n: nat, tid: nat, req: Request) {
    |states| == |acts| + 1 && n < |acts| && tid in states[n + 1].threads
    && StageOk(states, acts, b, n + 1, tid, req, states[n + 1].threads[tid])
  }

  lemma GetLands(states: seq<State>, acts: seq<Action>, b: nat, n: nat, tid: nat, req: Request, th: Thread)
    requires |states| == |acts| + 1 && Moved(acts, b, n, n + 1, tid) && req.Get?
    requires GetGoes(states[n], acts[n], req.id, th)
    ensures StageOk(states, acts, b, n + 1, tid, req, th)
  {
    hide LiveAt, CachedAt, NotLiveAt, RepoFails, CreateMeans, UpdateMeans, DeleteMeans, ListMeans;
  }

  lemma GetMoves(states: seq<State>, acts: seq<Action>, b: nat, n: nat, tid: nat, req: Request)
    requires Moving(states, acts, b, n, tid, req)
    requires var th := states[n].threads[tid]; th.GetLocal? || th.GetRedis? || th.GetRepo?
    ensures Moves(states, acts, b, n, tid, req)
  {
    GetSteps(states[n], tid, acts[n].c);
    hide GetStep, GetGoes, Means;
    GetLands(states, acts, b, n, tid, req, states[n + 1].threads[tid]);
  }

  lemma DeleteMoves(states: seq<State>, acts: seq<Action>, b: nat, n: nat, tid: nat, req: Request)
    requires Moving(states, acts, b, n, tid, req) && states[n].threads[tid].DeleteRepo?
    ensures Moves(states, acts, b, n, tid, req)
  {
    DeleteSteps(states[n], tid, acts[n].c);
    assert Moved(acts, b, n, n + 1, tid);
    hide DeleteStep, Buries, NotLiveAt, RepoFails, CreateMeans, GetMeans, UpdateMeans, ListMeans;
  }

  lemma ListLands(states: seq<State>, acts: seq<Action>, b: nat, n: nat, tid: nat, req: Request, th: Thread)
    requires |states| == |acts| + 1 && Moved(acts, b, n, n + 1, tid) && req.List?
    requires ListGoes(states[n], acts[n], req.page, req.size, th)
    ensures StageOk(states, acts, b, n + 1, tid, req, th)
  {
    hide ListCrashes, RepoFails, CreateMeans, GetMeans, UpdateMeans, DeleteMeans;
  }

  lemma ListMoves(states: seq<State>, acts: seq<Action>, b: nat, n: nat, tid: nat, req: Request)
    requires Moving(states, acts, b, n, tid, req)
    requires var th := states[n].threads[tid]; th.ListStart? || th.ListLocal? || th.ListRedis? || th.ListRepo?
    ensures Moves(states, acts, b, n, tid, req)
  {
    ListSteps(states[n], tid, acts[n].c);
    hide ListStep, ListGoes, Means;
    ListLands(states, acts, b, n, tid, req, states[n + 1].threads[tid]);
  }

  lemma CreateStartMoves(states: seq<State>, acts: seq<Action>, b: nat, n: nat, tid: nat, req: Request)
    requires Moving(states, acts, b, n, tid, req) && states[n].threads[tid].CreateStart?
    ensures Moves(states, acts, b, n, tid, req)
  {
    CreateStartSteps(states[n], tid, acts[n].c);
    assert Moved(acts, b, n, n + 1, tid);
    hide CreateStep, Built, Blank, NormalizeEmail, GetMeans, UpdateMeans, DeleteMeans, ListMeans;
  }

  lemma CreateRepoMoves(states: seq<State>, acts: seq<Action>, b: nat, n: nat, tid: nat, req: Request)
    requires Moving(states, acts, b, n, tid, req) && states[n].threads[tid].CreateRepo?
    ensures Moves(states, acts, b, n, tid, req)
  {
    var u := states[n].threads[tid].user;
    CreateRepoSteps(states[n], tid, acts[n].c);
    assert Moved(acts, b, n, n + 1, tid);
    var j :| Moved(acts, b, j, n, tid) && Built(states[j], acts[j], req.name, req.email, u);
    assert Moved(acts, b, j, n + 1, tid) && acts[j].c.id == u.id;
    hide CreateStep, Built, Inserts, RepoFails, GetMeans, UpdateMeans, DeleteMeans, ListMeans;
  }

  lemma UpdateReadMoves(states: seq<State>, acts: seq<Action>, b: nat, n: nat, tid: nat, req: Request)
    requires Moving(states, acts, b, n, tid, req) && states[n].threads[tid].UpdateRead?
    ensures Moves(states, acts, b, n, tid, req)
  {
    UpdateReadSteps(states[n], tid, acts[n].c);
    assert Moved(acts, b, n, n + 1, tid);
    hide UpdateStep, NotLiveAt, RepoFails, CreateMeans, GetMeans, DeleteMeans, ListMeans, EditedBy;
  }

  lemma UpdateEditMoves(states: seq<State>, acts: seq<Action>, b: nat, n: nat, tid: nat, req: Request)
    requires Moving(states, acts, b, n, tid, req) && states[n].threads[tid].UpdateEdit?
    ensures Moves(states, acts, b, n, tid, req)
  {
    var u := states[n].threads[tid].user;
    UpdateEditSteps(states[n], tid, acts[n].c);
    assert Moved(acts, b, n, n + 1, tid);
    if states[n + 1].threads[tid].UpdateRepo? {
      assert EditedBy(states, acts, b, n, n + 1, tid, req, states[n + 1].threads[tid].user);
    }
    hide UpdateStep, ReadBy, Blank, NormalizeEmail, CreateMeans, GetMeans, DeleteMeans, ListMeans;
  }

  lemma UpdateLands(states: seq<State>, acts: seq<Action>, b: nat, n: nat, tid: nat, req: Request, u: User, th: Thread)
    requires |states| == |acts| + 1 && Moved(acts, b, n, n + 1, tid)
    requires StageOk(states, acts, b, n + 1, tid, req, UpdateRepo(u))
    requires UpdateStores(states[n], acts[n], states[n + 1], u, th)
    ensures StageOk(states, acts, b, n + 1, tid, req, th)
  {
    hide Replaces, NotLiveAt, RepoFails, CreateMeans, GetMeans, DeleteMeans, ListMeans, EditedBy;
  }

  lemma UpdateRepoMoves(states: seq<State>, acts: seq<Action>, b: nat, n: nat, tid: nat, req: Request)
    requires Moving(states, acts, b, n, tid, req) && states[n].threads[tid].UpdateRepo?
    ensures Moves(states, acts, b, n, tid, req)
  {
    var u := states[n].threads[tid].user;
    UpdateRepoSteps(states[n], tid, acts[n].c);
    StageLasts(states, acts, b, n, tid, req, UpdateRepo(u));
    hide UpdateStep, UpdateStores, StageOk;
    UpdateLands(states, acts, b, n, tid, req, u, states[n + 1].threads[tid]);
  }

  lemma RunningMoves(states: seq<State>, acts: seq<Action>, b: nat, n: nat, tid: nat, req: Request)
    requires Moving(states, acts, b, n, tid, req) && states[n].threads[tid].Running?
    ensures Moves(states, acts, b, n, tid, req)
  {
    StageLasts(states, acts, b, n, tid, req, states[n].threads[tid]);
    hide Means;
  }

  lemma CallMoves(states: seq<State>, acts: seq<Action>, b: nat, n: nat, tid: nat, req: Request)
    requires Moving(states, acts, b, n, tid, req)
    ensures Moves(states, acts, b, n, tid, req)
  {
    var th := states[n].threads[tid];
    assert !th.Returned?;
    hide *;
    match th
    case CreateStart(_, _) => CreateStartMoves(states, acts, b, n, tid, req);
    case CreateRepo(_) => CreateRepoMoves(states, acts, b, n, tid, req);
    case UpdateRead(_, _, _) => UpdateReadMoves(states, acts, b, n, tid, req);
    case UpdateEdit(_, _, _) => UpdateEditMoves(states, acts, b, n, tid, req);
    case UpdateRepo(_) => UpdateRepoMoves(states, acts, b, n, tid, req);
    case DeleteRepo(_) => DeleteMoves(states, acts, b, n, tid, req);
    case Running(_, _, _) => RunningMoves(states, acts, b, n, tid, req);
    case Returned(_) =>
    case _ =>
      if th.GetLocal? || th.GetRedis? || th.GetRepo? {
        GetMoves(states, acts, b, n, tid, req);
      } else {
        ListMoves(states, acts, b, n, tid, req);
      }
  }

  // ----- whole runs -----

  /**
   * A step of thread x: no other thread moves, no call is rewritten, no table is taken back; a thread
   * that commits carries its commit's number until it returns, when the number is recorded.
   */
  ghost predicate MovesOnly(s: State, s': State, x: nat) {
    && s'.addressOk == s.addressOk && s'.calls == s.calls && s.hist <= s'.hist && s.returned <= s'.returned
    && x in s.threads && x in s'.threads && s'.threads == s.threads[x := s'.threads[x]]
    && (|s'.hist| > |s.hist| ==> Carries(s', x, |s.hist|))
    && (forall m :: Carries(s, x, m) ==> Carries(s', x, m))
  }

  /** The call has made commit m and is still running, or has returned and m is recorded. */
  ghost predicate Carries(s: State, x: nat, m: nat) {
    x in s.threads &&
    match s.threads[x]
    case Running(_, _, mutation) => mutation == Some(m)
    case Returned(_) => m in s.returned
    case _ => false
  }

  lemma CreateStepMovesOnly(s: State, x: nat, c: Choice)
    requires |s.hist| > 0 && x in s.threads
    requires var th := s.threads[x]; th.CreateStart? || th.CreateRepo?
    ensures MovesOnly(s, CreateStep(s, x, c), x)
  {
  }

  lemma GetStepMovesOnly(s: State, x: nat, c: Choice)
    requires |s.hist| > 0 && x in s.threads
    requires var th := s.threads[x]; th.GetLocal? || th.GetRedis? || th.GetRepo?
    ensures MovesOnly(s, GetStep(s, x, c), x)
  {
  }

  lemma UpdateStepMovesOnly(s: State, x: nat, c: Choice)
    requires |s.hist| > 0 && x in s.threads
    requires var th := s.threads[x]; th.UpdateRead? || th.UpdateEdit? || th.UpdateRepo?
    ensures MovesOnly(s, UpdateStep(s, x, c), x)
  {
  }

  lemma DeleteStepMovesOnly(s: State, x: nat, c: Choice)
    requires |s.hist| > 0 && x in s.threads
    requires var th := s.threads[x]; th.DeleteRepo?
    ensures MovesOnly(s, DeleteStep(s, x, c), x)
  {
  }

  lemma ListStepMovesOnly(s: State, x: nat, c: Choice)
    requires |s.hist| > 0 && x in s.threads
    requires var th := s.threads[x]; th.ListStart? || th.ListLocal? || th.ListRedis? || th.ListRepo?
    ensures MovesOnly(s, ListStep(s, x, c), x)
  {
  }

  lemma RunStepMovesOnly(s: State, x: nat, c: Choice)
    requires |s.hist| > 0 && x in s.threads
    requires var th := s.threads[x]; th.Running?
    ensures MovesOnly(s, RunStep(s, x, c), x)
  {
    if s.threads[x].todo != [] {
      ExecTouchesCaches(s, s.threads[x].todo[0], c.fail);
      hide Exec;
    }
  }

  lemma ExecTouchesCaches(s: State, i: Instr, fail: bool)
    requires |s.hist| > 0
    ensures var s' := Exec(s, i, fail);
      && s'.addressOk == s.addressOk && s'.calls == s.calls && s'.hist == s.hist && s'.returned == s.returned
      && s'.threads == s.threads
  {
  }

  lemma StepMovesOnly(s: State, x: nat, c: Choice)
    requires |s.hist| > 0 && x in s.threads && !s.threads[x].Returned?
    ensures MovesOnly(s, Step(s, x, c), x)
  {
    var th := s.threads[x];
    hide MovesOnly, CreateStep, GetStep, UpdateStep, DeleteStep, ListStep, RunStep;
    if th.CreateStart? || th.CreateRepo? {
      CreateStepMovesOnly(s, x, c);
    } else if th.GetLocal? || th.GetRedis? || th.GetRepo? {
      GetStepMovesOnly(s, x, c);
    } else if th.UpdateRead? || th.UpdateEdit? || th.UpdateRepo? {
      UpdateStepMovesOnly(s, x, c);
    } else if th.DeleteRepo? {
      DeleteStepMovesOnly(s, x, c);
    } else if th.Running? {
      RunStepMovesOnly(s, x, c);
    } else {
      ListStepMovesOnly(s, x, c);
    }
  }

  lemma ActionMovesOnly(s: State, a: Action, tid: nat)
    requires Enabled(s, a)
    ensures var s' := Apply(s, a);
      && s'.addressOk == s.addressOk && s.hist <= s'.hist && s.returned <= s'.returned
      && (!a.Begin? ==> s'.calls == s.calls && s'.threads.Keys == s.threads.Keys)
      && (tid in s.threads && !(a.Advance? && a.tid == tid) ==>
            tid in s'.threads && s'.threads[tid] == s.threads[tid]
            && (tid in s.calls ==> tid in s'.calls && s'.calls[tid] == s.calls[tid]))
  {
    if a.Advance? {
      StepMovesOnly(s, a.tid, a.c);
    }
    hide Step;
  }

  lemma {:induction false} SameParser(states: seq<State>, acts: seq<Action>, n: nat)
    requires IsRun(states, acts) && n <= |acts|
    ensures states[n].addressOk == states[0].addressOk
  {
    if n > 0 {
      SameParser(states, acts, n - 1);
      assert Follows(states, acts, n - 1);
      ActionMovesOnly(states[n - 1], acts[n - 1], 0);
    }
  }

  lemma TablesAreWellKeyed(states: seq<State>, acts: seq<Action>, n: nat)
    requires IsRun(states, acts) && Init(states[0]) && n <= |acts|
    ensures |states[n].hist| > 0 && WellKeyed(states[n].Rows())
  {
    var f := DataInvariant.First(|LiveIds(states[0].hist[0].rows)|, false);
    DataInvariant.RunKeeps(f, states, acts, n);
    assert DataInvariant.SnapshotOk(f, states[n].addressOk, states[n].clock, states[n].hist[states[n].Now()]);
  }

  /** What a call can account for in one state of a run, it can in the next. */
  lemma StageGoesOn(states: seq<State>, acts: seq<Action>, b: nat, n: nat, tid: nat, req: Request)
    requires IsRun(states, acts) && Init(states[0]) && n < |acts| && BeganAt(acts, b, n, tid, req)
    requires tid in states[n].threads && StageOk(states, acts, b, n, tid, req, states[n].threads[tid])
    ensures tid in states[n + 1].threads && StageOk(states, acts, b, n + 1, tid, req, states[n + 1].threads[tid])
  {
    assert Follows(states, acts, n);
    ActionMovesOnly(states[n], acts[n], tid);
    if acts[n].Advance? && acts[n].tid == tid {
      TablesAreWellKeyed(states, acts, n);
      SameParser(states, acts, n);
      hide StageOk, Step, Init;
      CallMoves(states, acts, b, n, tid, req);
    } else {
      StageLasts(states, acts, b, n, tid, req, states[n].threads[tid]);
      hide StageOk, Step, Init;
    }
  }

  lemma FirstStageAccounts(states: seq<State>, acts: seq<Action>, b: nat, n: nat, tid: nat, req: Request)
    requires |states| == |acts| + 1
    ensures StageOk(states, acts, b, n, tid, req, FirstStage(req))
  {
    hide Means;
  }

  lemma {:induction false} EveryStageAccounts(states: seq<State>, acts: seq<Action>, n: nat, tid: nat) returns (b: nat)
    requires IsRun(states, acts) && Init(states[0]) && n <= |acts| && tid in states[n].threads
    ensures tid in states[n].calls && BeganAt(acts, b, n, tid, states[n].calls[tid].request)
    ensures StageOk(states, acts, b, n, tid, states[n].calls[tid].request, states[n].threads[tid])
    decreases n
  {
    b := 0;
    if n > 0 {
      var s, a := states[n - 1], acts[n - 1];
      assert Follows(states, acts, n - 1);
      ActionMovesOnly(s, a, tid);
      hide StageOk, Step, Init;
      if a.Begin? && a.tid == tid {
        b := n - 1;
        FirstStageAccounts(states, acts, b, n, tid, a.request);
      } else {
        b := EveryStageAccounts(states, acts, n - 1, tid);
        StageGoesOn(states, acts, b, n - 1, tid, s.calls[tid].request);
      }
    }
  }

  /**
   * Every answer of every run is accounted for by the call's own steps between its beginning and its
   * return: not found only if its id was not live at one of them, a storage error only if one of its
   * repository calls failed, a validation error only for such arguments, a duplicate only for an id it had
   * drawn, a crash only where the listing arithmetic panics; a created, updated or deleted answer only
   * after the commit of exactly that row; and no request gets another request's kind of answer.
   */
  lemma AnswersAreAccountedFor(states: seq<State>, acts: seq<Action>, n: nat, tid: nat) returns (b: nat)
    requires IsRun(states, acts) && Init(states[0]) && n <= |acts|
    requires tid in states[n].threads && states[n].threads[tid].Returned?
    ensures tid in states[n].calls && BeganAt(acts, b, n, tid, states[n].calls[tid].request)
    ensures Means(states, acts, b, n, tid, states[n].calls[tid].request, states[n].threads[tid].reply)
  {
    b := EveryStageAccounts(states, acts, n, tid);
    hide Means;
  }
}

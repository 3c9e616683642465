/**
 * What every interleaving keeps of the data itself: tombstones are final, counts are conserved,
 * and every row is normalised.
 */
module DataInvariant {
  import opened Core
  import opened Text
  import Paging
  import opened Table
  import opened Service
  import opened CachedService
  import opened Protocol
  import ListFreshness

  /** What is known of the first table: how many users live in it, and whether its rows are normalised. */
  datatype First = First(live: nat, normal: bool)

  ghost predicate RowOk(f: First, addressOk: string -> bool, clock: Time, u: User) {
    f.normal ==>
      && u.name != "" && NoOuterSpace(u.name)
      && NormalizeEmail(addressOk, u.email) == Ok(u.email)
      && u.createdAt <= u.updatedAt <= clock
  }

  /** A later table: rows never vanish, creation times never change, tombstones never change at all. */
  ghost predicate Later(a: Rows, b: Rows) {
    forall id :: id in a ==>
      && id in b && b[id].createdAt == a[id].createdAt
      && (!a[id].Live() ==> b[id] == a[id])
  }

  ghost predicate SnapshotOk(f: First, addressOk: string -> bool, clock: Time, x: Snapshot) {
    && WellKeyed(x.rows)
    && |LiveIds(x.rows)| + x.deletes == x.creates + f.live
    && forall id :: id in x.rows ==> RowOk(f, addressOk, clock, x.rows[id])
  }

  /** A user an Update call is holding still has its row, created when it says. */
  ghost predicate Held(f: First, addressOk: string -> bool, clock: Time, t: Rows, u: User) {
    && RowOk(f, addressOk, clock, u) && u.Live()
    && u.id in t && t[u.id].createdAt == u.createdAt
  }

  ghost predicate ThreadOk(f: First, addressOk: string -> bool, clock: Time, t: Rows, th: Thread) {
    match th
    case CreateRepo(u) => RowOk(f, addressOk, clock, u) && u.Live()
    case UpdateEdit(u, _, _) => Held(f, addressOk, clock, t, u)
    case UpdateRepo(u) => Held(f, addressOk, clock, t, u)
    case _ => true
  }

  ghost predicate HistOk(f: First, addressOk: string -> bool, clock: Time, hist: seq<Snapshot>) {
    && |hist| > 0
    && (forall i :: 0 <= i < |hist| ==> SnapshotOk(f, addressOk, clock, hist[i]))
    && (forall i, j :: 0 <= i <= j < |hist| ==> Later(hist[i].rows, hist[j].rows))
  }

  ghost predicate Inv(f: First, s: State) {
    && |s.hist| > 0
    && HistOk(f, s.addressOk, s.clock, s.hist)
    && forall tid :: tid in s.threads ==> ThreadOk(f, s.addressOk, s.clock, s.Rows(), s.threads[tid])
  }

  // ----- rows -----

  lemma NewUserOk(f: First, addressOk: string -> bool, name: string, email: string, id: Uuid, now: Time)
    requires NewUser(addressOk, name, email, id, now).Ok?
    ensures var u := NewUser(addressOk, name, email, id, now).value; RowOk(f, addressOk, now, u) && u.Live()
  {
    var _, _ := TrimSpaceShape(name);
    NormalizedIsFixedPoint(addressOk, email);
  }

  lemma ChangedUserOk(f: First, addressOk: string -> bool, u: User, name: Option<string>, email: Option<string>,
                      now: Time, t: Rows)
    requires Held(f, addressOk, now, t, u) && ChangedUser(addressOk, u, name, email, now).Ok?
    ensures Held(f, addressOk, now, t, ChangedUser(addressOk, u, name, email, now).value)
  {
    if name.Some? {
      var _, _ := TrimSpaceShape(name.value);
    }
    if email.Some? {
      NormalizedIsFixedPoint(addressOk, email.value);
    }
  }

  lemma CreateOk(f: First, addressOk: string -> bool, clock: Time, x: Snapshot, u: User)
    requires SnapshotOk(f, addressOk, clock, x) && RowOk(f, addressOk, clock, u) && u.Live() && u.id !in x.rows
    ensures SnapshotOk(f, addressOk, clock, Snapshot(x.rows[u.id := u], x.creates + 1, x.deletes))
    ensures Later(x.rows, x.rows[u.id := u])
  {
    hide RowOk;
    assert LiveIds(x.rows[u.id := u]) == LiveIds(x.rows) + {u.id};
  }

  lemma UpdateOk(f: First, addressOk: string -> bool, clock: Time, x: Snapshot, u: User)
    requires SnapshotOk(f, addressOk, clock, x) && Held(f, addressOk, clock, x.rows, u) && IsLive(x.rows, u.id)
    ensures SnapshotOk(f, addressOk, clock, Snapshot(x.rows[u.id := u], x.creates, x.deletes))
    ensures Later(x.rows, x.rows[u.id := u])
  {
    hide RowOk;
    assert LiveIds(x.rows[u.id := u]) == LiveIds(x.rows);
  }

  lemma DeleteOk(f: First, addressOk: string -> bool, clock: Time, x: Snapshot, id: Uuid, now: Time)
    requires SnapshotOk(f, addressOk, clock, x) && IsLive(x.rows, id)
    ensures var t' := DeleteRow(x.rows, id, now).value;
            SnapshotOk(f, addressOk, clock, Snapshot(t', x.creates, x.deletes + 1)) && Later(x.rows, t')
  {
    var t' := DeleteRow(x.rows, id, now).value;
    assert LiveIds(t') == LiveIds(x.rows) - {id};
    assert id in LiveIds(x.rows);
  }

  // ----- steps -----

  lemma HistExtended(f: First, addressOk: string -> bool, clock: Time, hist: seq<Snapshot>, next: Snapshot)
    requires HistOk(f, addressOk, clock, hist)
    requires SnapshotOk(f, addressOk, clock, next) && Later(hist[|hist| - 1].rows, next.rows)
    ensures HistOk(f, addressOk, clock, hist + [next])
  {
  }

  lemma CommitKeeps(f: First, s: State, tid: nat, next: Snapshot, todo: seq<Instr>, reply: Reply)
    requires Inv(f, s) && tid in s.threads
    requires SnapshotOk(f, s.addressOk, s.clock, next) && Later(s.Rows(), next.rows)
    ensures Inv(f, Commit(s, tid, next, todo, reply))
  {
    HistExtended(f, s.addressOk, s.clock, s.hist, next);
    forall x | x in s.threads && x != tid
      ensures ThreadOk(f, s.addressOk, s.clock, next.rows, s.threads[x])
    {
      assert ThreadOk(f, s.addressOk, s.clock, s.Rows(), s.threads[x]);
    }
  }

  lemma CreateKeeps(f: First, s: State, tid: nat, c: Choice)
    requires Inv(f, s) && tid in s.threads && (s.threads[tid].CreateStart? || s.threads[tid].CreateRepo?)
    ensures Inv(f, CreateStep(s, tid, c))
  {
    hide NewUser, RowOk, SnapshotOk, Later;
    var cur, th := s.hist[s.Now()], s.threads[tid];
    assert ThreadOk(f, s.addressOk, s.clock, s.Rows(), th);
    if th.CreateStart? {
      if NewUser(s.addressOk, th.name, th.email, c.id, s.clock).Ok? {
        NewUserOk(f, s.addressOk, th.name, th.email, c.id, s.clock);
      }
    } else if !c.fail && th.user.id !in cur.rows {
      CreateOk(f, s.addressOk, s.clock, cur, th.user);
      CommitKeeps(f, s, tid, Snapshot(cur.rows[th.user.id := th.user], cur.creates + 1, cur.deletes),
                  [Bump] + SetUserInstrs(th.user), UserReply(th.user));
    }
  }

  lemma UpdateKeeps(f: First, s: State, tid: nat, c: Choice)
    requires Inv(f, s) && tid in s.threads
    requires s.threads[tid].UpdateRead? || s.threads[tid].UpdateEdit? || s.threads[tid].UpdateRepo?
    ensures Inv(f, UpdateStep(s, tid, c))
  {
    hide ChangedUser, RowOk, Later;
    var cur, th := s.hist[s.Now()], s.threads[tid];
    assert ThreadOk(f, s.addressOk, s.clock, s.Rows(), th);
    assert SnapshotOk(f, s.addressOk, s.clock, cur);
    if th.UpdateEdit? {
      if ChangedUser(s.addressOk, th.user, th.newName, th.newEmail, s.clock).Ok? {
        ChangedUserOk(f, s.addressOk, th.user, th.newName, th.newEmail, s.clock, s.Rows());
      }
    } else if th.UpdateRepo? && !c.fail && IsLive(cur.rows, th.user.id) {
      UpdateOk(f, s.addressOk, s.clock, cur, th.user);
      CommitKeeps(f, s, tid, Snapshot(cur.rows[th.user.id := th.user], cur.creates, cur.deletes),
                  DelUserInstrs(th.user.id) + [Bump] + SetUserInstrs(th.user), UserReply(th.user));
    }
  }

  lemma DeleteKeeps(f: First, s: State, tid: nat, c: Choice)
    requires Inv(f, s) && tid in s.threads && s.threads[tid].DeleteRepo?
    ensures Inv(f, DeleteStep(s, tid, c))
  {
    hide RowOk, SnapshotOk, Later;
    var cur, id := s.hist[s.Now()], s.threads[tid].id;
    if !c.fail && IsLive(cur.rows, id) {
      DeleteOk(f, s.addressOk, s.clock, cur, id, s.clock);
      CommitKeeps(f, s, tid, Snapshot(DeleteRow(cur.rows, id, s.clock).value, cur.creates, cur.deletes + 1),
                  DelUserInstrs(id) + [Bump], DeletedReply);
    }
  }

  /** Steps that touch neither the table nor a user being created or updated. */
  lemma OtherKeeps(f: First, s: State, tid: nat, c: Choice)
    requires Inv(f, s) && tid in s.threads
    requires var th := s.threads[tid];
             !(th.CreateStart? || th.CreateRepo? || th.UpdateRead? || th.UpdateEdit? || th.UpdateRepo?
                 || th.DeleteRepo?)
    ensures Inv(f, Step(s, tid, c))
  {
    hide HistOk, Held, RowOk, GetStep, ListStep, RunStep;
    var th := s.threads[tid];
    if th.GetLocal? || th.GetRedis? || th.GetRepo? {
      GetTouchesNothing(s, tid, c);
    } else if th.Running? {
      RunTouchesNothing(s, tid, c);
    } else if !th.Returned? {
      ListTouchesNothing(s, tid, c);
    }
  }

  /** `s'` differs from `s` in no table and only in thread `tid`, which holds no user to be written. */
  ghost predicate TouchesNothing(s: State, s': State, tid: nat) {
    && tid in s.threads && s'.hist == s.hist && s'.clock == s.clock && s'.addressOk == s.addressOk
    && tid in s'.threads && s'.threads == s.threads[tid := s'.threads[tid]]
    && !(s'.threads[tid].CreateRepo? || s'.threads[tid].UpdateEdit? || s'.threads[tid].UpdateRepo?)
  }

  lemma GetTouchesNothing(s: State, tid: nat, c: Choice)
    requires |s.hist| > 0 && tid in s.threads
    requires s.threads[tid].GetLocal? || s.threads[tid].GetRedis? || s.threads[tid].GetRepo?
    ensures TouchesNothing(s, GetStep(s, tid, c), tid)
  {
  }

  lemma ListTouchesNothing(s: State, tid: nat, c: Choice)
    requires |s.hist| > 0 && tid in s.threads
    requires var th := s.threads[tid]; th.ListStart? || th.ListLocal? || th.ListRedis? || th.ListRepo?
    ensures TouchesNothing(s, ListStep(s, tid, c), tid)
  {
  }

  lemma RunTouchesNothing(s: State, tid: nat, c: Choice)
    requires |s.hist| > 0 && tid in s.threads && s.threads[tid].Running?
    ensures TouchesNothing(s, RunStep(s, tid, c), tid)
  {
  }

  lemma TickKeeps(f: First, s: State, now: Time)
    requires Inv(f, s) && now >= s.clock
    ensures Inv(f, s.(clock := now))
  {
    forall i | 0 <= i < |s.hist|
      ensures SnapshotOk(f, s.addressOk, now, s.hist[i])
    {
      assert SnapshotOk(f, s.addressOk, s.clock, s.hist[i]);
    }
    forall x | x in s.threads
      ensures ThreadOk(f, s.addressOk, now, s.Rows(), s.threads[x])
    {
      assert ThreadOk(f, s.addressOk, s.clock, s.Rows(), s.threads[x]);
    }
  }

  lemma StepKeeps(f: First, s: State, a: Action)
    requires Inv(f, s) && Enabled(s, a)
    ensures Inv(f, Apply(s, a))
  {
    hide HistOk, Held, RowOk, CreateStep, GetStep, UpdateStep, DeleteStep, ListStep, RunStep;
    match a
    case Begin(tid, r) =>
    case Advance(tid, c) =>
      var th := s.threads[tid];
      if th.CreateStart? || th.CreateRepo? {
        CreateKeeps(f, s, tid, c);
      } else if th.UpdateRead? || th.UpdateEdit? || th.UpdateRepo? {
        UpdateKeeps(f, s, tid, c);
      } else if th.DeleteRepo? {
        DeleteKeeps(f, s, tid, c);
      } else {
        OtherKeeps(f, s, tid, c);
      }
    case Evict(_, _) =>
    case Tick(now) => TickKeeps(f, s, now);
  }

  // ----- whole runs -----

  ghost predicate StartsNormal(s: State) {
    forall x, id :: x in s.hist && id in x.rows ==> RowOk(First(0, true), s.addressOk, s.clock, x.rows[id])
  }

  lemma {:induction false} RunKeeps(f: First, states: seq<State>, acts: seq<Action>, n: nat)
    requires IsRun(states, acts) && Init(states[0]) && n <= |acts|
    requires f.live == |LiveIds(states[0].hist[0].rows)| && (f.normal ==> StartsNormal(states[0]))
    ensures Inv(f, states[n])
  {
    if n > 0 {
      RunKeeps(f, states, acts, n - 1);
      assert Follows(states, acts, n - 1);
      StepKeeps(f, states[n - 1], acts[n - 1]);
    }
  }

  /**
   * In every run, whatever overlaps (a Delete inside another call's read-edit-write included), once an
   * id is deleted its row never changes again: it is not updated, not recreated and not deleted twice.
   */
  lemma TombstonesArePermanent(states: seq<State>, acts: seq<Action>, i: nat, j: nat, id: Uuid)
    requires IsRun(states, acts) && Init(states[0])
    requires var s := states[|acts|]; i <= j < |s.hist| && IsTombstone(s.hist[i].rows, id)
    ensures var s := states[|acts|]; id in s.hist[j].rows && s.hist[j].rows[id] == s.hist[i].rows[id]
  {
    RunKeeps(First(|LiveIds(states[0].hist[0].rows)|, false), states, acts, |acts|);
    var s := states[|acts|];
    assert Later(s.hist[i].rows, s.hist[j].rows);
  }

  /**
   * Live users are those of the first table plus the successful Creates minus the successful Deletes,
   * in every committed table of every run.
   */
  lemma CountsAreConserved(states: seq<State>, acts: seq<Action>, i: nat)
    requires IsRun(states, acts) && Init(states[0]) && i < |states[|acts|].hist|
    ensures var x := states[|acts|].hist[i];
            |LiveIds(x.rows)| == |LiveIds(states[0].hist[0].rows)| + x.creates - x.deletes
  {
    var f := First(|LiveIds(states[0].hist[0].rows)|, false);
    RunKeeps(f, states, acts, |acts|);
    assert SnapshotOk(f, states[|acts|].addressOk, states[|acts|].clock, states[|acts|].hist[i]);
  }

  /**
   * If the first table is normalised, every row of every committed table has a trimmed non-empty name,
   * an email that normalisation leaves alone, and CreatedAt <= UpdatedAt; CreatedAt never changes.
   */
  lemma RowsAreNormalised(states: seq<State>, acts: seq<Action>, i: nat, id: Uuid)
    requires IsRun(states, acts) && Init(states[0]) && StartsNormal(states[0])
    requires i < |states[|acts|].hist| && id in states[|acts|].hist[i].rows
    ensures var s := states[|acts|]; var u := s.hist[i].rows[id];
            && u.name != "" && TrimSpace(u.name) == u.name
            && NormalizeEmail(s.addressOk, u.email) == Ok(u.email)
            && u.createdAt <= u.updatedAt <= s.clock
            && forall j :: i <= j < |s.hist| ==> id in s.hist[j].rows && s.hist[j].rows[id].createdAt == u.createdAt
  {
    var f := First(|LiveIds(states[0].hist[0].rows)|, true);
    RunKeeps(f, states, acts, |acts|);
    var s := states[|acts|];
    assert SnapshotOk(f, s.addressOk, s.clock, s.hist[i]);
    TrimmedIsFixed(s.hist[i].rows[id].name);
    forall j | i <= j < |s.hist|
      ensures id in s.hist[j].rows && s.hist[j].rows[id].createdAt == s.hist[i].rows[id].createdAt
    {
      assert Later(s.hist[i].rows, s.hist[j].rows);
    }
  }

  /**
   * The two results together: a List call that begins after the Delete of `id` has returned never shows
   * `id`, from cache or not, and its total is the conserved count of the table it came from.
   */
  lemma DeletedIsNeverListed(states: seq<State>, acts: seq<Action>, tid: nat, m: nat, id: Uuid)
    returns (k: nat)
    requires IsRun(states, acts) && Init(states[0]) && states[|acts|].ver < TWO64
    requires var s := states[|acts|];
             && tid in s.threads && tid in s.calls && s.calls[tid].request.List?
             && s.threads[tid].Returned? && s.threads[tid].reply.ListReply?
             && m in s.calls[tid].seen && m < |s.hist| && IsTombstone(s.hist[m].rows, id)
    ensures var s := states[|acts|]; var reply := s.threads[tid].reply;
            && m <= k < |s.hist|
            && reply.total == |LiveIds(states[0].hist[0].rows)| + s.hist[k].creates - s.hist[k].deletes
            && forall u :: u in reply.users ==> u.id != id && IsLive(s.hist[k].rows, u.id) && s.hist[k].rows[u.id] == u
  {
    k := ListFreshness.ListsAreFresh(states, acts, tid);
    var f := First(|LiveIds(states[0].hist[0].rows)|, false);
    RunKeeps(f, states, acts, |acts|);
    var s := states[|acts|];
    var req, reply := s.calls[tid].request, s.threads[tid].reply;
    TombstonesArePermanent(states, acts, m, k, id);
    assert SnapshotOk(f, s.addressOk, s.clock, s.hist[k]);
    ListReportsLiveRows(s.hist[k].rows, req.page, req.size, Paging.Page(reply.users, reply.total));
  }
}

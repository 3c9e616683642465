/**
 * The PostgreSQL repository and its transactional twin, over a table value with a primary key on id
 * and a unique email (tombstones included), and the commit/rollback protocol of WithTx.
 */
module Sql {
  import opened Core
  import opened Paging
  import opened Table

  // ----- the statements -----

  /** Some other row, live or not, has this email. */
  predicate EmailTaken(t: Rows, email: string, id: Uuid) {
    exists x :: x in t && x != id && t[x].email == email
  }

  /** INSERT names five columns; deleted_at defaults to NULL. */
  function Insert(t: Rows, u: User): Result<Rows> {
    if u.id in t || EmailTaken(t, u.email, u.id) then Err(Storage) else Ok(t[u.id := u.(deletedAt := None)])
  }

  /** UPDATE writes three columns of a live row. */
  function UpdateColumns(t: Rows, u: User): Result<Rows> {
    if !IsLive(t, u.id) then Err(NotFound)
    else if EmailTaken(t, u.email, u.id) then Err(Storage)
    else Ok(t[u.id := t[u.id].(name := u.name, email := u.email, updatedAt := u.updatedAt)])
  }

  function SqlSize(size: int64): (s: int64)
    ensures 1 <= s <= 100
  {
    if size <= 0 || size > 100 then 20 else size
  }

  /**
   * ORDER BY .. LIMIT .. OFFSET .. on an engine that returns the live rows of `t` as `order`, then
   * count(*) over `t`; a negative OFFSET is an error.
   */
  function SelectPage(t: Rows, order: seq<User>, page: int64, size: int64): Result<(seq<User>, int)> {
    var offset := Wrap(Times(PageNumber(page) - 1, SqlSize(size)));
    if offset < 0 then Err(Storage) else Ok((SliceOf(order, offset, SqlSize(size)), |LiveIds(t)|))
  }

  /** What List may return on table `t`: ties come in any order. */
  ghost predicate SelectAllowed(t: Rows, page: int64, size: int64, r: Result<(seq<User>, int)>) {
    exists order :: Ordering(t, order) && r == SelectPage(t, order, page, size)
  }

  /** A listing has at most a page of distinct live rows, newest first, and counts all live rows. */
  lemma SelectReportsLiveRows(t: Rows, page: int64, size: int64, r: Result<(seq<User>, int)>)
    requires SelectAllowed(t, page, size, r) && r.Ok?
    ensures r.value.1 == |LiveIds(t)| && |r.value.0| <= SqlSize(size)
    ensures Descending(r.value.0) && NoRepeats(r.value.0)
    ensures forall u :: u in r.value.0 ==> IsLive(t, u.id) && t[u.id] == u
  {
    var order :| Ordering(t, order) && r == SelectPage(t, order, page, size);
    var offset := Wrap(Times(PageNumber(page) - 1, SqlSize(size)));
    SliceOfListing(t, order, offset, SqlSize(size));
    hide Ordering, SliceOf;
  }

  lemma SliceOfListing(t: Rows, order: seq<User>, offset: nat, limit: nat)
    requires Ordering(t, order)
    ensures var s := SliceOf(order, offset, limit);
            && |s| <= limit && Descending(s) && NoRepeats(s)
            && forall u :: u in s ==> IsLive(t, u.id) && t[u.id] == u
  {
    var s := SliceOf(order, offset, limit);
    forall u | u in s ensures u in order {
    }
  }

  /** Without a size of 1 to 100 a page has twenty rows, without a page number it is the first. */
  lemma SqlDefaults(t: Rows, order: seq<User>, page: int64, size: int64)
    ensures !(1 <= size <= 100) ==> SelectPage(t, order, page, size) == SelectPage(t, order, page, 20)
    ensures page < 1 ==> SelectPage(t, order, page, size) == SelectPage(t, order, 1, size)
    ensures 1 <= size <= 100 ==>
              SelectPage(t, order, 1, size) == Ok((if size < |order| then order[..size] else order, |LiveIds(t)|))
  {
    assert Times(0, SqlSize(size)) == 0 && PageNumber(1) == 1;
    if 1 <= size <= 100 {
      assert SliceOf(order, 0, size) == if size < |order| then order[..size] else order;
    }
  }

  // ----- what the constraints guard -----

  /** `email TEXT NOT NULL UNIQUE`, rows marked deleted included. */
  predicate UniqueEmails(t: Rows) {
    forall x, y :: x in t && y in t && x != y ==> t[x].email != t[y].email
  }

  /** INSERT: exactly when no row, live or not, has the id or the email; the row is live with the fields given. */
  lemma InsertMeans(t: Rows, u: User)
    ensures if u.id in t || (exists x :: x in t && t[x].email == u.email) then Insert(t, u) == Err(Storage)
            else
              && Insert(t, u).Ok? && u.id in Insert(t, u).value
              && var v := Insert(t, u).value[u.id];
                 && Insert(t, u).value == t[u.id := v] && v.deletedAt == None
                 && v.id == u.id && v.name == u.name && v.email == u.email
                 && v.createdAt == u.createdAt && v.updatedAt == u.updatedAt
  {
  }

  /** UPDATE: name, email and time of a row that is not deleted, unless another row has the email. */
  lemma UpdateColumnsMeans(t: Rows, u: User)
    ensures if u.id !in t || t[u.id].deletedAt.Some? then UpdateColumns(t, u) == Err(NotFound)
            else if exists x :: x in t && x != u.id && t[x].email == u.email then UpdateColumns(t, u) == Err(Storage)
            else
              && UpdateColumns(t, u).Ok? && u.id in UpdateColumns(t, u).value
              && var v := UpdateColumns(t, u).value[u.id];
                 && UpdateColumns(t, u).value == t[u.id := v] && v.deletedAt == None
                 && v.name == u.name && v.email == u.email && v.updatedAt == u.updatedAt
                 && v.id == t[u.id].id && v.createdAt == t[u.id].createdAt
  {
  }

  // ----- operations, their answers, and running them directly or in a transaction -----

  /** A repository call; `order` is the order in which the engine happens to return the live rows. */
  datatype Op =
    | CreateOp(user: User)
    | GetOp(id: Uuid)
    | UpdateOp(user: User)
    | DeleteOp(id: Uuid, now: Time)
    | ListOp(page: int64, size: int64, order: seq<User>)

  datatype Reply = Done(done: Result<()>) | Found(user: Result<User>) | Listed(listing: Result<(seq<User>, int)>)

  predicate StorageError(r: Reply) {
    r == Done(Err(Storage)) || r == Found(Err(Storage)) || r == Listed(Err(Storage))
  }

  function Written(r: Result<Rows>): Reply {
    Done(if r.Ok? then Ok(()) else Err(r.error))
  }

  function Kept(t: Rows, r: Result<Rows>): Rows {
    if r.Ok? then r.value else t
  }

  /** On table `t` the engine may return the rows as the call says it does. */
  ghost predicate OpOk(t: Rows, op: Op) {
    op.ListOp? ==> Ordering(t, op.order)
  }

  /** One call on `UserRepo`, outside any transaction. */
  function Direct(t: Rows, op: Op): (Reply, Rows) {
    match op
    case CreateOp(u) => (Written(Insert(t, u)), Kept(t, Insert(t, u)))
    case GetOp(id) => (Found(GetRow(t, id)), t)
    case UpdateOp(u) => (Written(UpdateColumns(t, u)), Kept(t, UpdateColumns(t, u)))
    case DeleteOp(id, now) => (Written(DeleteRow(t, id, now)), Kept(t, DeleteRow(t, id, now)))
    case ListOp(page, size, order) => (Listed(SelectPage(t, order, page, size)), t)
  }

  datatype Event = Committed | CommitRefused | RolledBack | RollbackRefused

  /** A database with one transaction on it. */
  datatype TxState = TxState(table: Rows, view: Rows, open: bool, aborted: bool, log: seq<Event>)

  function Refusal(op: Op): Reply {
    match op
    case GetOp(_) => Found(Err(Storage))
    case ListOp(_, _, _) => Listed(Err(Storage))
    case _ => Done(Err(Storage))
  }

  /** One call on `txUserRepo`: a failed statement aborts the transaction. */
  function InTx(st: TxState, op: Op): (Reply, TxState) {
    if !st.open || st.aborted then (Refusal(op), st)
    else
      var (r, v) := Direct(st.view, op);
      (r, st.(view := v, aborted := StorageError(r)))
  }

  /**
   * Outside an open, sound transaction every call has a storage error and does nothing; inside, it answers as
   * the direct call does on the view, and a storage error, nothing else, aborts.
   */
  lemma InTxMeans(st: TxState, op: Op)
    ensures var (r, st') := InTx(st, op);
            && (StorageError(r) ==> !st'.open || st'.aborted)
            && (if !st.open || st.aborted then StorageError(r) && st' == st
                else
                  && r == Direct(st.view, op).0 && st'.view == Direct(st.view, op).1
                  && st'.table == st.table && st'.open && (st'.aborted <==> StorageError(r)) && st'.log == st.log)
  {
  }

  /** Commit; `fails` is a failure the driver reports, after which the transaction is gone. */
  function CommitTx(st: TxState, fails: bool): (bool, TxState) {
    if !st.open || st.aborted || fails
    then (false, st.(open := false, log := st.log + [CommitRefused]))
    else (true, st.(table := st.view, open := false, log := st.log + [Committed]))
  }

  function RollbackTx(st: TxState): TxState {
    st.(open := false, log := st.log + [if st.open then RolledBack else RollbackRefused])
  }

  // ----- WithTx -----

  /** What the body does with its unit of work: repository calls, but it may also end the transaction. */
  datatype BodyStep = Repo(op: Op) | BodyCommit(fails: bool) | BodyRollback
  datatype BodyEnd = ReturnsNil | ReturnsError | Panics
  datatype TxResult = Nil | Error | Panicked

  function Take(st: TxState, b: BodyStep): TxState {
    match b
    case Repo(op) => InTx(st, op).1
    case BodyCommit(fails) => CommitTx(st, fails).1
    case BodyRollback => RollbackTx(st)
  }

  /** The state after the body's steps. A body that looks at its answers still takes some such sequence. */
  function Body(st: TxState, steps: seq<BodyStep>): TxState
    decreases |steps|
  {
    if steps == [] then st else Take(Body(st, steps[..|steps| - 1]), steps[|steps| - 1])
  }

  function Begun(t: Rows): TxState {
    TxState(t, t, true, false, [])
  }

  function WithTxSpec(t: Rows, steps: seq<BodyStep>, end: BodyEnd, commitFails: bool): (TxResult, TxState) {
    var st := Body(Begun(t), steps);
    match end
    case Panics => (Panicked, RollbackTx(st))
    case ReturnsError => (Error, RollbackTx(st))
    case ReturnsNil =>
      var (ok, st') := CommitTx(st, commitFails);
      if ok then (Nil, st') else (Error, RollbackTx(st'))
  }

  /** Every listing in the body comes in an order its view allows at that point. */
  ghost predicate BodyOk(t: Rows, steps: seq<BodyStep>) {
    forall i :: 0 <= i < |steps| ==> StepOk(Body(Begun(t), steps[..i]), steps[i])
  }

  ghost predicate StepOk(st: TxState, b: BodyStep) {
    b.Repo? && st.open && !st.aborted ==> OpOk(st.view, b.op)
  }

  predicate RepoOnly(steps: seq<BodyStep>) {
    forall b :: b in steps ==> b.Repo?
  }

  lemma {:induction false} RepoBodyIsPrivate(t: Rows, steps: seq<BodyStep>)
    requires RepoOnly(steps)
    ensures var st := Body(Begun(t), steps); st.table == t && st.open && st.log == []
    decreases |steps|
  {
    if steps != [] {
      RepoBodyIsPrivate(t, steps[..|steps| - 1]);
      assert steps[|steps| - 1] in steps;
    }
  }

  /**
   * Transaction atomicity. For every body of repository calls and every ending: WithTx returns nil
   * exactly when the body returned nil, no statement aborted the transaction and the commit succeeded,
   * and then the table is the body's final view; in every other case the table is untouched.
   */
  lemma WithTxIsAtomic(t: Rows, steps: seq<BodyStep>, end: BodyEnd, commitFails: bool)
    requires RepoOnly(steps)
    ensures var st := Body(Begun(t), steps);
            var (r, after) := WithTxSpec(t, steps, end, commitFails);
            && (r == Nil <==> end == ReturnsNil && !st.aborted && !commitFails)
            && after.table == (if r == Nil then st.view else t)
            && (r == Panicked <==> end == BodyEnd.Panics)
  {
    RepoBodyIsPrivate(t, steps);
  }

  /**
   * Every transaction begun is ended: nil means the last thing done was a successful commit, and
   * anything else that the last thing done was a rollback attempt, which does something exactly when
   * neither the body nor a failed commit has already ended it. This holds for every body.
   */
  lemma WithTxEndsTheTransaction(t: Rows, steps: seq<BodyStep>, end: BodyEnd, commitFails: bool)
    ensures var (r, after) := WithTxSpec(t, steps, end, commitFails);
            && !after.open && after.log != []
            && after.log[|after.log| - 1] ==
               (if r == Nil then Committed
                else if Body(Begun(t), steps).open && end != ReturnsNil then RolledBack else RollbackRefused)
  {
  }

  /** The body itself committed a view that differs from the table it began with. */
  ghost predicate CommitsEarly(t: Rows, steps: seq<BodyStep>) {
    exists i :: 0 <= i < |steps| && CommitsAt(t, steps, i)
  }

  ghost predicate CommitsAt(t: Rows, steps: seq<BodyStep>, i: int)
    requires 0 <= i < |steps|
  {
    var st := Body(Begun(t), steps[..i]);
    steps[i].BodyCommit? && !steps[i].fails && st.open && !st.aborted && st.view != t
  }

  lemma {:induction false} EarlyCommitIsTheOnlyWay(t: Rows, steps: seq<BodyStep>)
    ensures var st := Body(Begun(t), steps);
            && (st.open ==> st.table == t)
            && (st.table != t <==> CommitsEarly(t, steps))
    decreases |steps|
  {
    if steps != [] {
      var n := |steps| - 1;
      var rest := steps[..n];
      EarlyCommitIsTheOnlyWay(t, rest);
      forall i | 0 <= i < n
        ensures CommitsAt(t, rest, i) <==> CommitsAt(t, steps, i)
      {
        assert rest[..i] == steps[..i];
      }
      if CommitsAt(t, steps, n) {
        assert CommitsEarly(t, steps);
      }
      if CommitsEarly(t, rest) {
        var i :| 0 <= i < n && CommitsAt(t, rest, i);
        assert CommitsAt(t, steps, i);
      }
      if CommitsEarly(t, steps) && !CommitsEarly(t, rest) {
        var i :| 0 <= i < |steps| && CommitsAt(t, steps, i);
        assert i == n;
      }
    }
  }

  /**
   * Bodies that may call Commit or Rollback on the unit of work: an error from WithTx means an
   * untouched table if and only if the body did not itself commit a change.
   */
  lemma ErrorMeansUntouchedIff(t: Rows, steps: seq<BodyStep>, end: BodyEnd, commitFails: bool)
    requires WithTxSpec(t, steps, end, commitFails).0 != Nil
    ensures WithTxSpec(t, steps, end, commitFails).1.table == t <==> !CommitsEarly(t, steps)
  {
    EarlyCommitIsTheOnlyWay(t, steps);
  }

  /** What a call answers and leaves behind, beside its statement: an error leaves the table alone, a read always. */
  lemma DirectMeans(t: Rows, op: Op)
    ensures var (r, t') := Direct(t, op);
            match op
            case CreateOp(u) =>
              if Insert(t, u).Ok? then r == Done(Ok(())) && t' == Insert(t, u).value
              else r == Done(Err(Storage)) && t' == t
            case GetOp(id) =>
              t' == t && r == Found(if id in t && t[id].deletedAt == None then Ok(t[id]) else Err(NotFound))
            case UpdateOp(u) =>
              if UpdateColumns(t, u).Ok? then r == Done(Ok(())) && t' == UpdateColumns(t, u).value
              else r == Done(Err(UpdateColumns(t, u).error)) && t' == t
            case DeleteOp(id, now) =>
              if id in t && t[id].deletedAt == None then
                r == Done(Ok(())) && t' == t[id := t[id].(deletedAt := Some(now))]
              else r == Done(Err(NotFound)) && t' == t
            case ListOp(page, size, order) => t' == t && r == Listed(SelectPage(t, order, page, size))
  {
  }

  // ----- emails stay unique -----

  lemma DirectKeepsUnique(t: Rows, op: Op)
    requires UniqueEmails(t)
    ensures UniqueEmails(Direct(t, op).1)
  {
  }

  /** Every transaction keeps the emails of its view and of the table unique, tombstones counted. */
  lemma {:induction false} BodyKeepsUnique(t: Rows, steps: seq<BodyStep>)
    requires UniqueEmails(t)
    ensures UniqueEmails(Body(Begun(t), steps).view) && UniqueEmails(Body(Begun(t), steps).table)
    decreases |steps|
  {
    if steps != [] {
      var st := Body(Begun(t), steps[..|steps| - 1]);
      BodyKeepsUnique(t, steps[..|steps| - 1]);
      if steps[|steps| - 1].Repo? {
        DirectKeepsUnique(st.view, steps[|steps| - 1].op);
      }
    }
  }

  lemma WithTxKeepsUnique(t: Rows, steps: seq<BodyStep>, end: BodyEnd, commitFails: bool)
    requires UniqueEmails(t)
    ensures UniqueEmails(WithTxSpec(t, steps, end, commitFails).1.table)
  {
    BodyKeepsUnique(t, steps);
  }

  // ----- the twin -----

  function DirectRun(t: Rows, ops: seq<Op>): (seq<Reply>, Rows)
    decreases |ops|
  {
    if ops == [] then ([], t)
    else
      var (rs, t') := DirectRun(t, ops[..|ops| - 1]);
      var (r, t'') := Direct(t', ops[|ops| - 1]);
      (rs + [r], t'')
  }

  function TxRun(st: TxState, ops: seq<Op>): (seq<Reply>, TxState)
    decreases |ops|
  {
    if ops == [] then ([], st)
    else
      var (rs, st') := TxRun(st, ops[..|ops| - 1]);
      var (r, st'') := InTx(st', ops[|ops| - 1]);
      (rs + [r], st'')
  }

  lemma {:induction false} DirectRunKeepsUnique(t: Rows, ops: seq<Op>)
    requires UniqueEmails(t)
    ensures UniqueEmails(DirectRun(t, ops).1)
    decreases |ops|
  {
    if ops != [] {
      DirectRunKeepsUnique(t, ops[..|ops| - 1]);
      DirectKeepsUnique(DirectRun(t, ops[..|ops| - 1]).1, ops[|ops| - 1]);
    }
  }

  /** Every listing comes in an order the table allows at that point of the direct run. */
  ghost predicate DirectOk(t: Rows, ops: seq<Op>)
    decreases |ops|
  {
    ops == [] || (DirectOk(t, ops[..|ops| - 1]) && OpOk(DirectRun(t, ops[..|ops| - 1]).1, ops[|ops| - 1]))
  }

  /** Every listing comes in an order the private view allows at that point of the transaction. */
  ghost predicate TxOk(st: TxState, ops: seq<Op>)
    decreases |ops|
  {
    ops == [] || (TxOk(st, ops[..|ops| - 1]) && OpOk(TxRun(st, ops[..|ops| - 1]).1.view, ops[|ops| - 1]))
  }

  /**
   * The twin is faithful: with no other client, a script without storage errors is possible through the
   * transactional repository exactly when it is possible directly, listings included; it gives the same
   * replies, and committing leaves the same table.
   */
  lemma {:induction false} TwinIsFaithful(t: Rows, ops: seq<Op>)
    requires forall r :: r in DirectRun(t, ops).0 ==> !StorageError(r)
    ensures var (rs, st) := TxRun(Begun(t), ops);
            && (TxOk(Begun(t), ops) <==> DirectOk(t, ops))
            && rs == DirectRun(t, ops).0
            && st == Begun(t).(view := DirectRun(t, ops).1)
            && CommitTx(st, false) == (true, st.(table := DirectRun(t, ops).1, open := false, log := [Committed]))
    decreases |ops|
  {
    if ops != [] {
      var rs, last := DirectRun(t, ops).0, DirectRun(t, ops[..|ops| - 1]).0;
      assert forall r :: r in last ==> r in rs;
      TwinIsFaithful(t, ops[..|ops| - 1]);
      assert rs[|last|] in rs;
    }
    assert [] + [Committed] == [Committed];
  }

  /** A storage error is final: whatever the body still calls, its transaction cannot commit any more. */
  lemma ErrorPoisons(st: TxState, op: Op, ops: seq<Op>)
    requires StorageError(InTx(st, op).0)
    ensures !CommitTx(TxRun(InTx(st, op).1, ops).1, false).0
  {
    InTxMeans(st, op);
    AbortedCommitsNothing(InTx(st, op).1, ops);
  }

  /** A closed or aborted transaction refuses everything and cannot commit. */
  lemma {:induction false} AbortedCommitsNothing(st: TxState, ops: seq<Op>)
    requires !st.open || st.aborted
    ensures TxRun(st, ops).1 == st && !CommitTx(TxRun(st, ops).1, false).0
    decreases |ops|
  {
    if ops != [] {
      AbortedCommitsNothing(st, ops[..|ops| - 1]);
    }
  }
}

/** The PostgreSQL repository, its transactional twin and WithTx as the objects of the source. */
module SqlRepo {
  import opened Core
  import opened Paging
  import opened Table
  import opened Sql

  // ----- the statements, on whichever table they are executed -----

  method ExecInsert(t: Rows, u: User) returns (r: Result<nat>, t': Rows)
    ensures match Insert(t, u)
            case Ok(after) => r == Ok(1) && t' == after
            case Err(e) => r == Err(e) && t' == t
  {
    if u.id in t || EmailTaken(t, u.email, u.id) {
      return Err(Storage), t;
    }
    return Ok(1), t[u.id := u.(deletedAt := None)];
  }

  method ExecUpdate(t: Rows, u: User) returns (r: Result<nat>, t': Rows)
    ensures match UpdateColumns(t, u)
            case Ok(after) => r == Ok(1) && t' == after
            case Err(e) => r == (if e == NotFound then Ok(0) else Err(e)) && t' == t
  {
    if u.id !in t || t[u.id].deletedAt.Some? {
      return Ok(0), t;
    }
    if EmailTaken(t, u.email, u.id) {
      return Err(Storage), t;
    }
    return Ok(1), t[u.id := t[u.id].(name := u.name, email := u.email, updatedAt := u.updatedAt)];
  }

  method ExecSoftDelete(t: Rows, id: Uuid, now: Time) returns (affected: nat, t': Rows)
    ensures match DeleteRow(t, id, now)
            case Ok(after) => affected == 1 && t' == after
            case Err(e) => affected == 0 && t' == t
  {
    if id !in t || t[id].deletedAt.Some? {
      return 0, t;
    }
    return 1, t[id := t[id].(deletedAt := Some(now))];
  }

  /** Both queries of List: the cursor over at most `size` rows from the offset on, then the count. */
  method SelectRows(t: Rows, page: int64, size: int64, order: seq<User>) returns (r: Result<(seq<User>, int)>)
    requires Ordering(t, order)
    ensures r == SelectPage(t, order, page, size)
    ensures SelectAllowed(t, page, size, r)
  {
    var p := page;
    if p < 1 {
      p := 1;
    }
    var n := size;
    if n <= 0 || n > 100 {
      n := 20;
    }
    var offset: int := Wrap(Times(p - 1, n));
    if offset < 0 {
      return Err(Storage);
    }
    var from := Min(offset, |order|);
    var i, out := from, [];
    while i < |order| && |out| < n
      invariant from <= i <= |order| && |out| == i - from <= n
      invariant out == order[from..i]
    {
      out := out + [order[i]];
      i := i + 1;
    }
    return Ok((out, |LiveIds(t)|));
  }

  /** *sql.DB: each statement is applied to the committed table at once. */
  class Database {
    var rows: Rows

    constructor (rows: Rows)
      ensures this.rows == rows
    {
      this.rows := rows;
    }
  }

  class UserRepo {
    const db: Database

    constructor (db: Database)
      ensures this.db == db
    {
      this.db := db;
    }

    method Create(u: User) returns (r: Result<()>)
      modifies db
      ensures (Done(r), db.rows) == Direct(old(db.rows), CreateOp(u))
    {
      var res, t := ExecInsert(db.rows, u);
      db.rows := t;
      r := if res.Err? then Err(res.error) else Ok(());
    }

    method Get(id: Uuid) returns (r: Result<User>)
      ensures (Found(r), db.rows) == Direct(db.rows, GetOp(id))
    {
      if id !in db.rows || db.rows[id].deletedAt.Some? {
        return Err(NotFound);
      }
      return Ok(db.rows[id]);
    }

    method Update(u: User) returns (r: Result<()>)
      modifies db
      ensures (Done(r), db.rows) == Direct(old(db.rows), UpdateOp(u))
    {
      var res, t := ExecUpdate(db.rows, u);
      db.rows := t;
      if res.Err? {
        return Err(res.error);
      }
      if res.value == 0 {
        return Err(NotFound);
      }
      return Ok(());
    }

    method Delete(id: Uuid, now: Time) returns (r: Result<()>)
      modifies db
      ensures (Done(r), db.rows) == Direct(old(db.rows), DeleteOp(id, now))
    {
      var n, t := ExecSoftDelete(db.rows, id, now);
      db.rows := t;
      r := if n == 0 then Err(NotFound) else Ok(());
    }

    method List(page: int64, size: int64, order: seq<User>) returns (r: Result<(seq<User>, int)>)
      requires Ordering(db.rows, order)
      ensures (Listed(r), db.rows) == Direct(db.rows, ListOp(page, size, order))
      ensures SelectAllowed(db.rows, page, size, r)
    {
      r := SelectRows(db.rows, page, size, order);
    }
  }

  /** *sql.Tx: statements see and change a private view until Commit. */
  class Tx {
    const db: Database
    var view: Rows
    var open: bool
    var aborted: bool
    ghost var log: seq<Event>

    ghost function State(): TxState
      reads this, db
    {
      TxState(db.rows, view, open, aborted, log)
    }

    constructor (db: Database)
      ensures this.db == db && State() == Begun(db.rows)
    {
      this.db := db;
      view, open, aborted, log := db.rows, true, false, [];
    }

    method Commit(fails: bool) returns (ok: bool)
      modifies this, db
      ensures (ok, State()) == CommitTx(old(State()), fails)
    {
      if !open || aborted || fails {
        open := false;
        log := log + [CommitRefused];
        return false;
      }
      db.rows := view;
      open := false;
      log := log + [Committed];
      return true;
    }

    method Rollback()
      modifies this
      ensures State() == RollbackTx(old(State()))
    {
      log := log + [if open then RolledBack else RollbackRefused];
      open := false;
    }
  }

  class TxUserRepo {
    const tx: Tx

    constructor (tx: Tx)
      ensures this.tx == tx
    {
      this.tx := tx;
    }

    method Create(u: User) returns (r: Result<()>)
      modifies tx
      ensures (Done(r), tx.State()) == InTx(old(tx.State()), CreateOp(u))
    {
      if !tx.open || tx.aborted {
        return Err(Storage);
      }
      var res, t := ExecInsert(tx.view, u);
      tx.view, tx.aborted := t, res.Err?;
      r := if res.Err? then Err(res.error) else Ok(());
    }

    method Get(id: Uuid) returns (r: Result<User>)
      ensures (Found(r), tx.State()) == InTx(tx.State(), GetOp(id))
    {
      if !tx.open || tx.aborted {
        return Err(Storage);
      }
      if id !in tx.view || tx.view[id].deletedAt.Some? {
        return Err(NotFound);
      }
      return Ok(tx.view[id]);
    }

    method Update(u: User) returns (r: Result<()>)
      modifies tx
      ensures (Done(r), tx.State()) == InTx(old(tx.State()), UpdateOp(u))
    {
      if !tx.open || tx.aborted {
        return Err(Storage);
      }
      var res, t := ExecUpdate(tx.view, u);
      tx.view, tx.aborted := t, res.Err?;
      if res.Err? {
        return Err(res.error);
      }
      if res.value == 0 {
        return Err(NotFound);
      }
      return Ok(());
    }

    method Delete(id: Uuid, now: Time) returns (r: Result<()>)
      modifies tx
      ensures (Done(r), tx.State()) == InTx(old(tx.State()), DeleteOp(id, now))
    {
      if !tx.open || tx.aborted {
        return Err(Storage);
      }
      var n, t := ExecSoftDelete(tx.view, id, now);
      tx.view := t;
      r := if n == 0 then Err(NotFound) else Ok(());
    }

    method List(page: int64, size: int64, order: seq<User>) returns (r: Result<(seq<User>, int)>)
      requires tx.open && !tx.aborted ==> Ordering(tx.view, order)
      modifies tx
      ensures (Listed(r), tx.State()) == InTx(old(tx.State()), ListOp(page, size, order))
      ensures old(tx.open && !tx.aborted) ==> SelectAllowed(tx.view, page, size, r)
    {
      if !tx.open || tx.aborted {
        return Err(Storage);
      }
      r := SelectRows(tx.view, page, size, order);
      tx.aborted := r.Err?;
    }
  }

  /** One step of a transaction body. */
  method TakeStep(tx: Tx, b: BodyStep)
    requires StepOk(tx.State(), b)
    modifies tx, tx.db
    ensures tx.State() == Take(old(tx.State()), b)
  {
    var repo := new TxUserRepo(tx);
    match b {
      case BodyCommit(fails) => var _ := tx.Commit(fails);
      case BodyRollback => tx.Rollback();
      case Repo(op) =>
        match op {
          case CreateOp(u) => var _ := repo.Create(u);
          case GetOp(id) => var _ := repo.Get(id);
          case UpdateOp(u) => var _ := repo.Update(u);
          case DeleteOp(id, now) => var _ := repo.Delete(id, now);
          case ListOp(page, size, order) => var _ := repo.List(page, size, order);
        }
    }
  }

  /** userService.WithTx: a `committed` flag and a deferred rollback that runs on every exit. */
  method WithTx(db: Database, steps: seq<BodyStep>, end: BodyEnd, beginFails: bool, commitFails: bool)
    returns (r: TxResult, ghost after: Option<TxState>)
    requires BodyOk(db.rows, steps)
    modifies db
    ensures beginFails ==> r == Error && after == None && db.rows == old(db.rows)
    ensures !beginFails ==>
              && after == Some(WithTxSpec(old(db.rows), steps, end, commitFails).1)
              && r == WithTxSpec(old(db.rows), steps, end, commitFails).0
              && db.rows == after.value.table
  {
    if beginFails {
      return Error, None;
    }
    var tx := new Tx(db);
    var committed := false;
    for i := 0 to |steps|
      invariant tx.db == db && fresh(tx)
      invariant tx.State() == Body(Begun(old(db.rows)), steps[..i])
    {
      assert steps[..i + 1][..i] == steps[..i];
      TakeStep(tx, steps[i]);
    }
    assert steps[..|steps|] == steps;
    match end {
      case Panics => r := Panicked;
      case ReturnsError => r := Error;
      case ReturnsNil =>
        var ok := tx.Commit(commitFails);
        if ok {
          committed := true;
          r := Nil;
        } else {
          r := Error;
        }
    }
    if !committed {
      tx.Rollback();
    }
    after := Some(tx.State());
  }
}

/** The plain user service over the in-memory repository. */
module Service {
  import opened Core
  import opened Paging
  import opened Table
  import opened MemoryRepo
  import opened Text

  // ----- what each call does, as functions of the table -----

  /** The user a Create call builds, before the repository sees it. */
  function NewUser(addressOk: string -> bool, name: string, email: string, id: Uuid, now: Time): Result<User> {
    if TrimSpace(name) == "" then Err(NameEmpty)
    else
      match NormalizeEmail(addressOk, email)
      case Err(e) => Err(e)
      case Ok(ne) => Ok(User(id, TrimSpace(name), ne, now, now, None))
  }

  /** The user an Update call writes back, given the one it read. */
  function ChangedUser(addressOk: string -> bool, u: User, name: Option<string>, email: Option<string>, now: Time)
    : Result<User>
  {
    if name.Some? && TrimSpace(name.value) == "" then Err(NameEmpty)
    else
      var named := if name.Some? then u.(name := TrimSpace(name.value)) else u;
      if email.None? then Ok(named.(updatedAt := now))
      else
        match NormalizeEmail(addressOk, email.value)
        case Err(e) => Err(e)
        case Ok(ne) => Ok(named.(email := ne, updatedAt := now))
  }

  function CreateCall(addressOk: string -> bool, t: Rows, name: string, email: string, id: Uuid, now: Time)
    : (Result<User>, Rows)
  {
    match NewUser(addressOk, name, email, id, now)
    case Err(e) => (Err(e), t)
    case Ok(u) =>
      match CreateRow(t, u)
      case Err(e) => (Err(e), t)
      case Ok(t') => (Ok(u), t')
  }

  function UpdateCall(addressOk: string -> bool, t: Rows, id: Uuid, name: Option<string>, email: Option<string>,
                      now: Time)
    : (Result<User>, Rows)
  {
    match GetRow(t, id)
    case Err(e) => (Err(e), t)
    case Ok(u) =>
      match ChangedUser(addressOk, u, name, email, now)
      case Err(e) => (Err(e), t)
      case Ok(u') =>
        match UpdateRow(t, u')
        case Err(e) => (Err(e), t)
        case Ok(t') => (Ok(u'), t')
  }

  function DeleteCall(t: Rows, id: Uuid, now: Time): (Result<()>, Rows) {
    match DeleteRow(t, id, now)
    case Err(e) => (Err(e), t)
    case Ok(t') => (Ok(()), t')
  }

  /** The fetched copy when validation gives up: a rejected email leaves the new name written. */
  function Abandoned(u: User, name: Option<string>, e: Error): User {
    if e == NameEmpty || name.None? then u else u.(name := TrimSpace(name.value))
  }

  // ----- the three writes, as one-row changes -----

  lemma CreateChangesOneRow(addressOk: string -> bool, t: Rows, name: string, email: string, id: Uuid, now: Time)
    ensures var (r, t') := CreateCall(addressOk, t, name, email, id, now);
            if r.Ok? then r.value.id == id && id !in t && t' == t[id := r.value] && r.value.Live() else t' == t
  {
  }

  lemma UpdateChangesOneRow(addressOk: string -> bool, t: Rows, id: Uuid, name: Option<string>, email: Option<string>,
                            now: Time)
    requires WellKeyed(t)
    ensures var (r, t') := UpdateCall(addressOk, t, id, name, email, now);
            if r.Ok? then r.value.id == id && IsLive(t, id) && t' == t[id := r.value] && r.value.Live() else t' == t
  {
  }

  lemma DeleteChangesOneRow(t: Rows, id: Uuid, now: Time)
    ensures var (r, t') := DeleteCall(t, id, now);
            if r.Ok? then IsLive(t, id) && id in t' && t' == t[id := t'[id]] && IsTombstone(t', id) else t' == t
  {
  }

  // ----- the calls, field by field and error by error -----

  /** What a Create asks for: the first error in the source's order, else the trimmed name and normalised email. */
  lemma NewUserMeans(addressOk: string -> bool, name: string, email: string, id: Uuid, now: Time)
    ensures var r := NewUser(addressOk, name, email, id, now);
            var e := NormalizeEmail(addressOk, email);
            if Blank(name) then r == Err(NameEmpty)
            else if e.Err? then r == Err(e.error)
            else
              && r.Ok? && r.value.id == id && r.value.name == TrimSpace(name) && r.value.email == e.value
              && r.value.createdAt == now == r.value.updatedAt && r.value.deletedAt == None
  {
    var _, _ := TrimSpaceMeans(name);
  }

  /** What an Update makes of the user it read: just the given fields and the time are replaced. */
  lemma ChangedUserMeans(addressOk: string -> bool, u: User, name: Option<string>, email: Option<string>, now: Time)
    ensures var r := ChangedUser(addressOk, u, name, email, now);
            if name.Some? && Blank(name.value) then r == Err(NameEmpty)
            else if email.Some? && NormalizeEmail(addressOk, email.value).Err? then
              r == Err(NormalizeEmail(addressOk, email.value).error)
            else
              && r.Ok? && r.value.id == u.id && r.value.deletedAt == u.deletedAt
              && r.value.name == (if name.Some? then TrimSpace(name.value) else u.name)
              && r.value.email == (if email.Some? then NormalizeEmail(addressOk, email.value).value else u.email)
              && r.value.createdAt == u.createdAt && r.value.updatedAt == now
  {
    if name.Some? {
      var _, _ := TrimSpaceMeans(name.value);
    }
  }

  /** Create: the errors in their order, else a live row with the trimmed name, the normalised email and one time. */
  lemma CreateCallMeans(addressOk: string -> bool, t: Rows, name: string, email: string, id: Uuid, now: Time)
    ensures var (r, t') := CreateCall(addressOk, t, name, email, id, now);
            var e := NormalizeEmail(addressOk, email);
            if Blank(name) then r == Err(NameEmpty) && t' == t
            else if e.Err? then r == Err(e.error) && t' == t
            else if id in t then r == Err(DuplicateId) && t' == t
            else
              && r.Ok? && t' == t[id := r.value]
              && r.value.id == id && r.value.name == TrimSpace(name) && r.value.email == e.value
              && r.value.createdAt == now == r.value.updatedAt && r.value.deletedAt == None
  {
    NewUserMeans(addressOk, name, email, id, now);
    hide NewUser, NormalizeEmail, TrimSpace, Blank;
  }

  /** Update: the errors in their order, else the stored row with just the given fields and the time replaced. */
  lemma UpdateCallMeans(addressOk: string -> bool, t: Rows, id: Uuid, name: Option<string>, email: Option<string>,
                        now: Time)
    requires WellKeyed(t)
    ensures var (r, t') := UpdateCall(addressOk, t, id, name, email, now);
            if id !in t || t[id].deletedAt.Some? then r == Err(NotFound) && t' == t
            else if name.Some? && Blank(name.value) then r == Err(NameEmpty) && t' == t
            else if email.Some? && NormalizeEmail(addressOk, email.value).Err? then
              r == Err(NormalizeEmail(addressOk, email.value).error) && t' == t
            else
              && r.Ok? && t' == t[id := r.value]
              && r.value.id == id && r.value.deletedAt == None
              && r.value.name == (if name.Some? then TrimSpace(name.value) else t[id].name)
              && r.value.email == (if email.Some? then NormalizeEmail(addressOk, email.value).value else t[id].email)
              && r.value.createdAt == t[id].createdAt && r.value.updatedAt == now
  {
    if id in t {
      ChangedUserMeans(addressOk, t[id], name, email, now);
    }
    hide ChangedUser, NormalizeEmail, TrimSpace, Blank;
  }

  /** Delete: a row that is there and not deleted gets the time as its stamp, and nothing else changes. */
  lemma DeleteCallMeans(t: Rows, id: Uuid, now: Time)
    ensures var (r, t') := DeleteCall(t, id, now);
            if id !in t || t[id].deletedAt.Some? then r == Err(NotFound) && t' == t
            else
              && r == Ok(()) && id in t' && t' == t[id := t'[id]]
              && t'[id].deletedAt == Some(now)
              && t'[id].id == t[id].id && t'[id].name == t[id].name && t'[id].email == t[id].email
              && t'[id].createdAt == t[id].createdAt && t'[id].updatedAt == t[id].updatedAt
  {
  }

  /** Get: exactly the rows that are there and not deleted are read. */
  lemma GetRowMeans(t: Rows, id: Uuid, u: User)
    ensures GetRow(t, id) == Ok(u) <==> id in t && t[id] == u && u.deletedAt == None
    ensures GetRow(t, id).Err? ==> GetRow(t, id) == Err(NotFound)
  {
  }

  function ResultValue(r: Result<UserObj>): Result<User>
    reads if r.Ok? then {r.value} else {}
  {
    match r
    case Ok(o) => Ok(o.Value())
    case Err(e) => Err(e)
  }

  // ----- the service object -----

  class UserService {
    const repo: InMemoryUserRepo
    const addressOk: string -> bool

    constructor (repo: InMemoryUserRepo, addressOk: string -> bool)
      ensures this.repo == repo && this.addressOk == addressOk
    {
      this.repo, this.addressOk := repo, addressOk;
    }

    method Create(name: string, email: string, id: Uuid, now: Time) returns (r: Result<UserObj>)
      requires repo.Valid()
      modifies repo
      ensures repo.Valid() && fresh(repo.users.Values - old(repo.users.Values))
      ensures r.Ok? ==> fresh(r.value)
      ensures (ResultValue(r), repo.Rows()) == CreateCall(addressOk, old(repo.Rows()), name, email, id, now)
    {
      if TrimSpace(name) == "" {
        return Err(NameEmpty);
      }
      var ne := NormalizeEmail(addressOk, email);
      if ne.Err? {
        return Err(ne.error);
      }
      var u := new UserObj(User(id, TrimSpace(name), ne.value, now, now, None));
      var created := repo.Create(u);
      if created.Err? {
        return Err(created.error);
      }
      return Ok(u);
    }

    method Get(id: Uuid) returns (r: Result<UserObj>)
      requires repo.Valid()
      modifies repo`exposed
      ensures repo.Valid() && repo.Rows() == old(repo.Rows())
      ensures r.Ok? ==> fresh(r.value) && r.value.id == id
      ensures ResultValue(r) == GetRow(repo.Rows(), id)
    {
      r := repo.Get(id);
    }

    /** The middle of Update: writes the requested fields into the user just read. */
    method Edit(u: UserObj, name: Option<string>, email: Option<string>, now: Time) returns (r: Result<()>)
      modifies u
      ensures match ChangedUser(addressOk, old(u.Value()), name, email, now)
              case Ok(u') => r == Ok(()) && u.Value() == u'
              case Err(e) => r == Err(e) && u.Value() == Abandoned(old(u.Value()), name, e)
    {
      if name.Some? {
        if TrimSpace(name.value) == "" {
          return Err(NameEmpty);
        }
        u.name := TrimSpace(name.value);
      }
      if email.Some? {
        var ne := NormalizeEmail(addressOk, email.value);
        if ne.Err? {
          return Err(ne.error);
        }
        u.email := ne.value;
      }
      u.updatedAt := now;
      return Ok(());
    }

    method Update(id: Uuid, name: Option<string>, email: Option<string>, now: Time) returns (r: Result<UserObj>)
      requires repo.Valid()
      modifies repo
      ensures repo.Valid() && fresh(repo.users.Values - old(repo.users.Values))
      ensures r.Ok? ==> fresh(r.value)
      ensures (ResultValue(r), repo.Rows()) == UpdateCall(addressOk, old(repo.Rows()), id, name, email, now)
    {
      var got := repo.Get(id);
      if got.Err? {
        return Err(got.error);
      }
      var u := got.value;
      var edited := Edit(u, name, email, now);
      if edited.Err? {
        return Err(edited.error);
      }
      var updated := repo.Update(u);
      if updated.Err? {
        return Err(updated.error);
      }
      return Ok(u);
    }

    method Delete(id: Uuid, now: Time) returns (r: Result<()>)
      requires repo.Valid()
      modifies repo.users.Values
      ensures repo.Valid() && repo.users == old(repo.users)
      ensures (r, repo.Rows()) == DeleteCall(old(repo.Rows()), id, now)
    {
      r := repo.Delete(id, now);
    }

    method List(page: int64, size: int64) returns (out: Outcome<UserObj>)
      requires repo.Valid()
      modifies repo`exposed
      ensures repo.Valid() && repo.Rows() == old(repo.Rows())
      ensures fresh(Shown(out))
      ensures ListAllowed(repo.Rows(), page, size, OutcomeValues(out))
    {
      out := repo.List(page, size);
    }
  }
}

/**
 * The two repositories behind one service: when the in-memory and the SQL repository admit the same
 * runs, and exactly what separates them.
 */
module Agreement {
  import opened Core
  import opened Paging
  import opened Table
  import opened Service
  import opened CachedService
  import opened Sql
  import opened Text

  // ----- the plain service over the SQL repository -----

  function SqlCreate(addressOk: string -> bool, t: Rows, name: string, email: string, id: Uuid, now: Time)
    : (Result<User>, Rows)
  {
    match NewUser(addressOk, name, email, id, now)
    case Err(e) => (Err(e), t)
    case Ok(u) =>
      match Insert(t, u)
      case Err(e) => (Err(e), t)
      case Ok(t') => (Ok(u), t')
  }

  function SqlUpdate(addressOk: string -> bool, t: Rows, id: Uuid, name: Option<string>, email: Option<string>,
                     now: Time)
    : (Result<User>, Rows)
  {
    match GetRow(t, id)
    case Err(e) => (Err(e), t)
    case Ok(u) =>
      match ChangedUser(addressOk, u, name, email, now)
      case Err(e) => (Err(e), t)
      case Ok(u') =>
        match UpdateColumns(t, u')
        case Err(e) => (Err(e), t)
        case Ok(t') => (Ok(u'), t')
  }

  function SqlAnswer(r: Result<(seq<User>, int)>): Answer {
    match r
    case Ok((items, total)) => Listing(Page(items, total))
    case Err(e) => ListFailed(e)
  }

  ghost predicate SqlListAllowed(t: Rows, page: int64, size: int64, a: Answer) {
    exists order :: Ordering(t, order) && a == SqlAnswer(SelectPage(t, order, page, size))
  }

  ghost predicate SqlStep(addressOk: string -> bool, t: Rows, call: Call, a: Answer, t': Rows) {
    match call
    case CreateCall(name, email, id, now) =>
      a.UserAnswer? && (a.user, t') == SqlCreate(addressOk, t, name, email, id, now)
    case GetCall(id) =>
      a == UserAnswer(GetRow(t, id)) && t' == t
    case UpdateCall(id, name, email, now) =>
      a.UserAnswer? && (a.user, t') == SqlUpdate(addressOk, t, id, name, email, now)
    case DeleteCall(id, now) =>
      a.Deleted? && (a.done, t') == Service.DeleteCall(t, id, now)
    case ListCall(page, size) =>
      SqlListAllowed(t, page, size, a) && t' == t
  }

  // ----- what separates them -----

  /** The call would store an email some other row already has, be it a tombstone. */
  ghost predicate Clash(addressOk: string -> bool, t: Rows, call: Call) {
    match call
    case CreateCall(name, email, id, now) =>
      var r := NewUser(addressOk, name, email, id, now);
      r.Ok? && EmailTaken(t, r.value.email, id)
    case UpdateCall(id, name, email, now) =>
      IsLive(t, id) &&
      var r := ChangedUser(addressOk, t[id], name, email, now);
      r.Ok? && EmailTaken(t, r.value.email, id)
    case _ => false
  }

  /** The page's offset wraps below zero: one repository panics, the other reports a storage error. */
  predicate LosesOffset(call: Call) {
    call.ListCall? && Wrap(Offset(call.page, call.size)) < 0
  }

  /** Fresh ids, and page arguments as the HTTP handler produces them. */
  ghost predicate OrdinaryCall(t: Rows, call: Call) {
    && (call.CreateCall? ==> call.id !in t)
    && (call.ListCall? ==> HandlerArguments(call.page, call.size))
  }

  /** Overwriting the record and writing three columns agree exactly when the record carries the row's other columns. */
  lemma UpdatesAgreeIff(t: Rows, u: User)
    requires IsLive(t, u.id) && t[u.id].id == u.id && !EmailTaken(t, u.email, u.id)
    ensures UpdateRow(t, u) == UpdateColumns(t, u) <==> u.createdAt == t[u.id].createdAt && u.Live()
  {
    assert t[u.id := u][u.id] == u;
    assert UpdateColumns(t, u).value[u.id] == t[u.id].(name := u.name, email := u.email, updatedAt := u.updatedAt);
  }

  /** With handler arguments both page computations wrap alike, but an offset below zero ends them differently. */
  lemma PagesAgreeIff(t: Rows, order: seq<User>, page: int64, size: int64)
    requires HandlerArguments(page, size) && |order| == |LiveIds(t)| && |order| + size <= MAX_INT
    ensures Listing(MemoryPage(order, page, size)) == SqlAnswer(SelectPage(t, order, page, size))
            <==> Wrap(Offset(page, size)) >= 0
    ensures Wrap(Offset(page, size)) < 0 ==>
              MemoryPage(order, page, size) == Paging.Panics && SelectPage(t, order, page, size) == Err(Storage)
  {
  }

  lemma ListsAgreeIff(t: Rows, page: int64, size: int64)
    requires WellKeyed(t) && HandlerArguments(page, size) && |LiveIds(t)| + size <= MAX_INT
    ensures (forall a: Answer ::
               (a.Listing? && ListAllowed(t, page, size, a.out)) <==> SqlListAllowed(t, page, size, a))
            <==> Wrap(Offset(page, size)) >= 0
  {
    forall order | Ordering(t, order)
      ensures Listing(MemoryPage(order, page, size)) == SqlAnswer(SelectPage(t, order, page, size))
              <==> Wrap(Offset(page, size)) >= 0
      ensures Wrap(Offset(page, size)) < 0 ==> MemoryPage(order, page, size) == Paging.Panics
      ensures Wrap(Offset(page, size)) < 0 ==> SelectPage(t, order, page, size) == Err(Storage)
    {
      OrderingLength(t, order);
      PagesAgreeIff(t, order, page, size);
    }
    hide MemoryPage, SelectPage, Ordering;
    if Wrap(Offset(page, size)) >= 0 {
      forall a: Answer ensures (a.Listing? && ListAllowed(t, page, size, a.out)) <==> SqlListAllowed(t, page, size, a) {
        if a.Listing? && ListAllowed(t, page, size, a.out) {
          var order :| Ordering(t, order) && a.out == MemoryPage(order, page, size);
          assert a == SqlAnswer(SelectPage(t, order, page, size));
        }
        if SqlListAllowed(t, page, size, a) {
          var order :| Ordering(t, order) && a == SqlAnswer(SelectPage(t, order, page, size));
          assert a == Listing(MemoryPage(order, page, size));
        }
      }
    } else {
      var order := OrderingExists(t);
      var a := Listing(Paging.Panics);
      assert ListAllowed(t, page, size, a.out);
      assert !SqlListAllowed(t, page, size, a);
    }
  }

  /** The largest page a handler lets through, on an empty table: a panic on one side, an error on the other. */
  lemma HugePageTellsThemApart(addressOk: string -> bool)
    ensures var call := ListCall(MAX_INT, 20);
            && OrdinaryCall(map[], call) && LosesOffset(call)
            && PlainStep(addressOk, map[], call, Listing(Paging.Panics), map[])
            && SqlStep(addressOk, map[], call, ListFailed(Storage), map[])
            && !PlainStep(addressOk, map[], call, ListFailed(Storage), map[])
  {
    assert Ordering(map[], []);
    assert MemoryPage<User>([], MAX_INT, 20) == Paging.Panics;
    assert SelectPage(map[], [], MAX_INT, 20) == Err(Storage);
  }

  /** The email of a deleted user, used again: one repository takes it, the other reports a storage error. */
  lemma DeletedEmailTellsThemApart(addressOk: string -> bool, d: User, name: string, email: string, id: Uuid, now: Time)
    requires d.deletedAt.Some? && d.id != id && d.email == email
    requires !Blank(name) && NormalizeEmail(addressOk, email) == Ok(email)
    ensures var t, call := map[d.id := d], CreateCall(name, email, id, now);
            && OrdinaryCall(t, call) && Clash(addressOk, t, call)
            && (forall a, t' :: PlainStep(addressOk, t, call, a, t') ==> a.UserAnswer? && a.user.Ok? && id in t')
            && (forall a, t' :: SqlStep(addressOk, t, call, a, t') <==> a == UserAnswer(Err(Storage)) && t' == t)
  {
    var t := map[d.id := d];
    CreateCallMeans(addressOk, t, name, email, id, now);
    var u := NewUser(addressOk, name, email, id, now);
    assert u.Ok? && u.value.id == id && u.value.email == email;
    assert d.id in t && t[d.id].email == email;
    InsertMeans(t, u.value);
  }

  /** A clash: the in-memory repository goes on with two rows of one email, the SQL one refuses and keeps its table. */
  lemma ClashesDiffer(addressOk: string -> bool, t: Rows, call: Call, a: Answer, t': Rows)
    requires WellKeyed(t) && OrdinaryCall(t, call) && Clash(addressOk, t, call)
    ensures SqlStep(addressOk, t, call, a, t') <==> a == UserAnswer(Err(Storage)) && t' == t
    ensures PlainStep(addressOk, t, call, a, t') ==> a.UserAnswer? && a.user.Ok? && !UniqueEmails(t')
  {
    var id := call.id;
    var u := if call.CreateCall? then NewUser(addressOk, call.name, call.email, id, call.now).value
             else ChangedUser(addressOk, t[id], call.newName, call.newEmail, call.now).value;
    var x :| x in t && x != id && t[x].email == u.email;
    if PlainStep(addressOk, t, call, a, t') {
      assert t'[x].email == t'[id].email;
    }
  }

  /** A lost offset: the in-memory repository panics, the SQL one reports an error; neither changes its table. */
  lemma LostOffsetsDiffer(addressOk: string -> bool, t: Rows, call: Call, a: Answer, t': Rows)
    requires WellKeyed(t) && OrdinaryCall(t, call) && LosesOffset(call) && |LiveIds(t)| + 100 <= MAX_INT
    ensures SqlStep(addressOk, t, call, a, t') <==> a == ListFailed(Storage) && t' == t
    ensures PlainStep(addressOk, t, call, a, t') <==> a == Listing(Paging.Panics) && t' == t
  {
    forall order | Ordering(t, order)
      ensures MemoryPage(order, call.page, call.size) == Paging.Panics
      ensures SelectPage(t, order, call.page, call.size) == Err(Storage)
    {
      OrderingLength(t, order);
      PagesAgreeIff(t, order, call.page, call.size);
    }
    hide MemoryPage, SelectPage, Ordering;
    var order := OrderingExists(t);
    assert SelectPage(t, order, call.page, call.size) == Err(Storage);
  }

  lemma CreatesAgree(addressOk: string -> bool, t: Rows, name: string, email: string, id: Uuid, now: Time)
    requires id !in t
    ensures SqlCreate(addressOk, t, name, email, id, now) == Service.CreateCall(addressOk, t, name, email, id, now)
            <==> !Clash(addressOk, t, CreateCall(name, email, id, now))
  {
  }

  lemma UpdateCallsAgree(addressOk: string -> bool, t: Rows, id: Uuid, name: Option<string>, email: Option<string>,
                         now: Time)
    requires WellKeyed(t)
    ensures SqlUpdate(addressOk, t, id, name, email, now) == Service.UpdateCall(addressOk, t, id, name, email, now)
            <==> !Clash(addressOk, t, CachedService.UpdateCall(id, name, email, now))
  {
  }

  /**
   * One call: the two repositories admit the same answers and the same next tables exactly when the
   * call neither clashes with a stored email nor loses its offset to wrapping.
   */
  lemma StepsAgreeIff(addressOk: string -> bool, t: Rows, call: Call)
    requires WellKeyed(t) && OrdinaryCall(t, call) && |LiveIds(t)| + 100 <= MAX_INT
    ensures (forall a, t' :: PlainStep(addressOk, t, call, a, t') <==> SqlStep(addressOk, t, call, a, t'))
            <==> !Clash(addressOk, t, call) && !LosesOffset(call)
  {
    hide ListAllowed, SqlListAllowed, NewUser, ChangedUser, CreateRow, UpdateRow, Insert, UpdateColumns;
    match call
    case CreateCall(name, email, id, now) =>
      CreatesAgree(addressOk, t, name, email, id, now);
      var (r, t') := Service.CreateCall(addressOk, t, name, email, id, now);
      assert PlainStep(addressOk, t, call, UserAnswer(r), t');
    case UpdateCall(id, name, email, now) =>
      UpdateCallsAgree(addressOk, t, id, name, email, now);
      var (r, t') := Service.UpdateCall(addressOk, t, id, name, email, now);
      assert PlainStep(addressOk, t, call, UserAnswer(r), t');
    case ListCall(page, size) =>
      ListsAgreeIff(t, page, size);
      if LosesOffset(call) {
        var a: Answer :| (a.Listing? && ListAllowed(t, page, size, a.out)) != SqlListAllowed(t, page, size, a);
        assert PlainStep(addressOk, t, call, a, t) != SqlStep(addressOk, t, call, a, t);
      }
    case _ =>
  }

  /**
   * Whole runs: along any sequence of tables on which every call is ordinary, clash-free and keeps its
   * offset, the in-memory repository admits the answers if and only if the SQL repository does.
   */
  lemma RunsAgree(addressOk: string -> bool, tables: seq<Rows>, script: seq<Call>, answers: seq<Answer>)
    requires |tables| == |script| + 1 && |answers| == |script|
    requires forall i :: 0 <= i < |script| ==>
               WellKeyed(tables[i]) && |LiveIds(tables[i])| + 100 <= MAX_INT && OrdinaryCall(tables[i], script[i])
    requires forall i :: 0 <= i < |script| ==> !Clash(addressOk, tables[i], script[i]) && !LosesOffset(script[i])
    ensures (forall i :: 0 <= i < |script| ==> PlainStep(addressOk, tables[i], script[i], answers[i], tables[i + 1]))
            <==> (forall i :: 0 <= i < |script| ==> SqlStep(addressOk, tables[i], script[i], answers[i], tables[i + 1]))
  {
    hide PlainStep, SqlStep, OrdinaryCall, Clash, LosesOffset;
    forall i | 0 <= i < |script|
      ensures PlainStep(addressOk, tables[i], script[i], answers[i], tables[i + 1])
              <==> SqlStep(addressOk, tables[i], script[i], answers[i], tables[i + 1])
    {
      StepsAgreeIff(addressOk, tables[i], script[i]);
    }
  }
}

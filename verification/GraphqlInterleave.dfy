/**
 * The whole executor at once. Every field and every element is a task of its own, and the tasks'
 * accesses to the shared error list (append an error, ask whether a position has one) interleave in any
 * way. The generated code runs fewer tasks at the same time, so each of its schedules is one of these.
 */
module GraphqlInterleave {
  import opened Core
  import opened GraphqlSpec
  import opened GraphqlTheory
  import opened GraphqlExec

  /** What a parent makes of its children's values: a list, or an object with each key and whether its null counts. */
  datatype Kind = ListKind | ObjectKind(fields: seq<(string, bool)>)

  /** A task, as much of it as is left. */
  datatype Task =
    | Done(tree: Tree)
    | Append(at: Path)
    | Check(at: Path)
    | Branch(kind: Kind, tasks: seq<Task>)

  function Combine(kind: Kind, trees: seq<Tree>): Tree {
    match kind
    case ListKind => if Null in trees then Null else Arr(trees)
    case ObjectKind(fields) =>
      if exists i :: 0 <= i < |trees| && i < |fields| && fields[i].1 && trees[i] == Null then Null
      else Obj(seq(|trees|, i requires 0 <= i < |trees| => (if i < |fields| then fields[i].0 else "", trees[i])))
  }

  // ---------- The steps ----------

  predicate AllDone(tasks: seq<Task>) {
    forall i :: 0 <= i < |tasks| ==> tasks[i].Done?
  }

  function Trees(tasks: seq<Task>): seq<Tree>
    requires AllDone(tasks)
  {
    seq(|tasks|, i requires 0 <= i < |tasks| => tasks[i].tree)
  }

  /** The task at address `at` under `n` takes its next step, if it has one. */
  function StepAt(n: Task, errs: multiset<Path>, at: seq<nat>): Option<(Task, multiset<Path>)>
    decreases n
  {
    match n
    case Done(_) => None
    case Append(p) => if at == [] then Some((Done(Null), errs + multiset{p})) else None
    case Check(p) => if at == [] then Some((if p in errs then Done(Null) else Append(p), errs)) else None
    case Branch(kind, tasks) =>
      if at == [] then if AllDone(tasks) then Some((Done(Combine(kind, Trees(tasks))), errs)) else None
      else if at[0] >= |tasks| then None
      else
        var m := StepAt(tasks[at[0]], errs, at[1..]);
        if m.None? then None else Some((Branch(kind, tasks[at[0] := m.value.0]), m.value.1))
  }

  /** Taking these steps in turn leads from (n, errs) to (m, errs'). */
  predicate Leads(n: Task, errs: multiset<Path>, acts: seq<seq<nat>>, m: Task, errs': multiset<Path>)
    decreases |acts|
  {
    if acts == [] then n == m && errs == errs'
    else
      var s := StepAt(n, errs, acts[0]);
      s.Some? && Leads(s.value.0, s.value.1, acts[1..], m, errs')
  }

  // ---------- What a task will come to ----------

  function Final(n: Task): Tree
    decreases n, 0
  {
    match n
    case Done(tree) => tree
    case Append(_) => Null
    case Check(_) => Null
    case Branch(kind, tasks) => Combine(kind, Finals(tasks))
  }

  function Finals(tasks: seq<Task>): (trees: seq<Tree>)
    ensures |trees| == |tasks| && forall i :: 0 <= i < |tasks| ==> trees[i] == Final(tasks[i])
    decreases tasks, 0
  {
    seq(|tasks|, i requires 0 <= i < |tasks| => Final(tasks[i]))
  }

  /** The errors still to be appended, if no check finds one already there. */
  function Owed(n: Task): multiset<Path>
    decreases n, 0
  {
    match n
    case Done(_) => multiset{}
    case Append(p) => multiset{p}
    case Check(p) => multiset{p}
    case Branch(_, tasks) => AllOwed(tasks)
  }

  function AllOwed(tasks: seq<Task>): multiset<Path>
    decreases tasks, 0
  {
    if tasks == [] then multiset{} else AllOwed(tasks[..|tasks| - 1]) + Owed(tasks[|tasks| - 1])
  }

  function Size(n: Task): nat
    decreases n, 0
  {
    match n
    case Done(_) => 0
    case Append(_) => 1
    case Check(_) => 2
    case Branch(_, tasks) => 1 + AllSize(tasks)
  }

  function AllSize(tasks: seq<Task>): nat
    decreases tasks, 0
  {
    if tasks == [] then 0 else AllSize(tasks[..|tasks| - 1]) + Size(tasks[|tasks| - 1])
  }

  lemma {:induction false} Replaced(tasks: seq<Task>, i: nat, m: Task)
    requires i < |tasks|
    ensures AllOwed(tasks[i := m]) + Owed(tasks[i]) == AllOwed(tasks) + Owed(m)
    ensures AllSize(tasks[i := m]) + Size(tasks[i]) == AllSize(tasks) + Size(m)
    ensures Owed(tasks[i]) <= AllOwed(tasks)
  {
    hide Owed, Size;
    var n := |tasks| - 1;
    if i == n {
      assert tasks[i := m][..n] == tasks[..n];
    } else {
      assert tasks[i := m][..n] == tasks[..n][i := m] && tasks[i := m][n] == tasks[n];
      Replaced(tasks[..n], i, m);
      Regroup(AllOwed(tasks[..n][i := m]), Owed(tasks[i]), AllOwed(tasks[..n]), Owed(m), Owed(tasks[n]));
    }
  }

  lemma Regroup(a: multiset<Path>, b: multiset<Path>, c: multiset<Path>, d: multiset<Path>, e: multiset<Path>)
    requires a + b == c + d
    ensures a + e + b == c + e + d
  {
    assert a + e + b == (a + b) + e && c + e + d == (c + d) + e;
  }

  /** No position has, or will come to have, two errors. */
  ghost predicate Once(errs: multiset<Path>) {
    forall p :: errs[p] <= 1
  }

  lemma {:induction false} StepKeeps(n: Task, errs: multiset<Path>, at: seq<nat>)
    requires Once(errs + Owed(n)) && StepAt(n, errs, at).Some?
    ensures var (m, errs') := StepAt(n, errs, at).value;
      Final(m) == Final(n) && errs' + Owed(m) == errs + Owed(n) && Size(m) < Size(n)
    decreases n
  {
    match n
    case Check(p) =>
      assert (errs + multiset{p})[p] == errs[p] + 1;
    case Branch(kind, tasks) =>
      if at == [] {
        assert Finals(tasks) == Trees(tasks);
        NothingOwed(tasks);
      } else {
        var i := at[0];
        var (m, errs') := StepAt(tasks[i], errs, at[1..]).value;
        Replaced(tasks, i, m);
        assert forall p :: (errs + Owed(tasks[i]))[p] <= (errs + Owed(n))[p];
        StepKeeps(tasks[i], errs, at[1..]);
        BranchKeeps(kind, tasks, i, m, errs, errs');
      }
    case _ =>
  }

  lemma {:induction false} NothingOwed(tasks: seq<Task>)
    requires AllDone(tasks)
    ensures AllOwed(tasks) == multiset{} && AllSize(tasks) == 0
  {
    if tasks != [] {
      NothingOwed(tasks[..|tasks| - 1]);
    }
  }

  lemma Balances(e': multiset<Path>, m: multiset<Path>, e: multiset<Path>, t: multiset<Path>,
                 after: multiset<Path>, all: multiset<Path>)
    requires e' + m == e + t && after + t == all + m
    ensures e' + after == e + all
  {
    forall p ensures (e' + after)[p] == (e + all)[p] {
      assert (after + t)[p] == (all + m)[p] && (e' + m)[p] == (e + t)[p];
    }
  }

  lemma BranchKeeps(kind: Kind, tasks: seq<Task>, i: nat, m: Task, errs: multiset<Path>, errs': multiset<Path>)
    requires i < |tasks| && Final(m) == Final(tasks[i]) && Size(m) < Size(tasks[i])
    requires errs' + Owed(m) == errs + Owed(tasks[i])
    ensures var n, n' := Branch(kind, tasks), Branch(kind, tasks[i := m]);
      Final(n') == Final(n) && errs' + Owed(n') == errs + Owed(n) && Size(n') < Size(n)
  {
    Replaced(tasks, i, m);
    var after := tasks[i := m];
    assert Finals(after) == Finals(tasks);
    Balances(errs', Owed(m), errs, Owed(tasks[i]), AllOwed(after), AllOwed(tasks));
  }

  lemma {:induction false} RunKeeps(n: Task, errs: multiset<Path>, acts: seq<seq<nat>>, m: Task, errs': multiset<Path>)
    requires Once(errs + Owed(n)) && Leads(n, errs, acts, m, errs')
    ensures Final(m) == Final(n) && errs' + Owed(m) == errs + Owed(n) && |acts| + Size(m) <= Size(n)
    decreases |acts|
  {
    if acts != [] {
      StepKeeps(n, errs, acts[0]);
      var s := StepAt(n, errs, acts[0]).value;
      RunKeeps(s.0, s.1, acts[1..], m, errs');
    }
  }

  /** A task that is not done can take a step somewhere. */
  lemma {:induction false} CanStep(n: Task, errs: multiset<Path>) returns (at: seq<nat>)
    requires !n.Done?
    ensures StepAt(n, errs, at).Some?
    decreases n
  {
    at := [];
    if n.Branch? && !AllDone(n.tasks) {
      var i: nat :| i < |n.tasks| && !n.tasks[i].Done?;
      var rest := CanStep(n.tasks[i], errs);
      at := [i] + rest;
      assert at[1..] == rest;
    }
  }

  // ---------- The tasks of the generated code ----------

  function FieldTask(w: World, obj: ObjectType, f: Field, path: Path): Task
    decreases f, 0, 0
  {
    if f.name.Typename? then Done(Text(TypeText(obj)))
    else if CodeOf(obj, f.name).None? then Append(path)
    else
      var code := CodeOf(obj, f.name).value;
      match w(path)
      case Returns(v) =>
        if v.UntypedNil? then if code.nilIsError then Check(path) else Done(Null)
        else if !Asserts(code.marshal, v) then Append(path)
        else ValueTask(w, code.marshal, f.sels, v, path)
      case _ => Append(path)
  }

  function ValueTask(w: World, m: Marshal, sels: seq<Field>, v: GoValue, path: Path): Task
    decreases sels, Height(TypeFor(m)), 1
  {
    match m
    case NLeaf => if v.Leaf? then Done(Text(v.text)) else Append(path)
    case OLeafPtr => if v.Leaf? then Done(Text(v.text)) else Done(Null)
    case NStruct(o) => ObjectTask(w, o, sels, path)
    case NPtr(o) => if v.NilPointer? then Check(path) else ObjectTask(w, o, sels, path)
    case OPtr(o) => if v.NilPointer? then Done(Null) else ObjectTask(w, o, sels, path)
    case NList(item) =>
      assert Height(TypeFor(m)) == 2 + Height(TypeFor(item));
      ListTask(w, item, sels, if v.Slice? then v.items else [], path)
    case OList(item) =>
      if v.NilSlice? then Done(Null) else ListTask(w, item, sels, if v.Slice? then v.items else [], path)
  }

  function ListTask(w: World, item: Marshal, sels: seq<Field>, items: seq<GoValue>, path: Path): Task
    decreases sels, Height(TypeFor(item)), 3
  {
    Branch(ListKind, ItemTasks(w, item, sels, items, path, |items|))
  }

  function ItemTasks(w: World, item: Marshal, sels: seq<Field>, items: seq<GoValue>, path: Path, n: nat)
    : (ts: seq<Task>)
    requires n <= |items|
    ensures |ts| == n
    decreases sels, Height(TypeFor(item)), 2, n
  {
    if n == 0 then []
    else ItemTasks(w, item, sels, items, path, n - 1) + [ValueTask(w, item, sels, items[n - 1], path + [Index(n - 1)])]
  }

  function ObjectTask(w: World, obj: ObjectType, sels: seq<Field>, path: Path): Task
    decreases sels, 0, 1
  {
    Branch(Fields(obj, sels), FieldTasks(w, obj, sels, path, |sels|))
  }

  function Fields(obj: ObjectType, sels: seq<Field>): Kind {
    ObjectKind(seq(|sels|, i requires 0 <= i < |sels| => (sels[i].key, Counts(obj, sels[i].name))))
  }

  predicate Counts(obj: ObjectType, name: FieldName) {
    CodeOf(obj, name).Some? && CodeOf(obj, name).value.counts
  }

  function FieldTasks(w: World, obj: ObjectType, sels: seq<Field>, path: Path, n: nat): (ts: seq<Task>)
    requires n <= |sels|
    ensures |ts| == n
    decreases sels, 0, 0, n
  {
    if n == 0 then []
    else FieldTasks(w, obj, sels, path, n - 1) + [FieldTask(w, obj, sels[n - 1], path + [Key(sels[n - 1].key)])]
  }

  // ---------- They come to the reference ----------

  /** The task will end with the completion's tree and owes exactly its errors. */
  ghost predicate ComesTo(n: Task, c: Completed) {
    Final(n) == TreeOf(c) && Owed(n) == c.errs
  }

  lemma {:induction false} AllComeTo(tasks: seq<Task>, rs: seq<Completed>)
    requires |tasks| == |rs| && forall i :: 0 <= i < |tasks| ==> ComesTo(tasks[i], rs[i])
    ensures AllOwed(tasks) == AllErrs(rs)
  {
    hide Final, Owed;
    if tasks != [] {
      AllComeTo(tasks[..|tasks| - 1], rs[..|tasks| - 1]);
      assert Owed(tasks[|tasks| - 1]) == rs[|tasks| - 1].errs;
    }
  }

  lemma {:induction false} FieldTaskAt(w: World, obj: ObjectType, sels: seq<Field>, path: Path, n: nat, i: nat)
    requires i < n <= |sels|
    ensures FieldTasks(w, obj, sels, path, n)[i] == FieldTask(w, obj, sels[i], path + [Key(sels[i].key)])
  {
    hide FieldTask;
    if i < n - 1 {
      FieldTaskAt(w, obj, sels, path, n - 1, i);
    }
  }

  lemma {:induction false} ItemTaskAt(w: World, item: Marshal, sels: seq<Field>, items: seq<GoValue>, path: Path,
                                      n: nat, i: nat)
    requires i < n <= |items|
    ensures ItemTasks(w, item, sels, items, path, n)[i] == ValueTask(w, item, sels, items[i], path + [Index(i)])
    decreases n
  {
    hide ValueTask;
    if i < n - 1 {
      ItemTaskAt(w, item, sels, items, path, n - 1, i);
    }
  }

  lemma FieldComes(w: World, obj: ObjectType, f: Field, path: Path)
    requires DeclaredType(obj, f.name).Some?
    requires ValidatedUnder(Base(TypeOf(STANDARD, obj, f.name)), f.sels)
    ensures ComesTo(FieldTask(w, obj, f, path), ExecuteField(w, GQLGEN, obj, f, path))
    decreases f, 0, 0
  {
    CodeFollowsSchema(obj, f.name);
    TypesAreWellFormed(GQLGEN, obj, f.name);
    hide DeclaredType, TypeOf, CodeOf, CompleteValue, ValueTask, ValidatedUnder, Fits, Asserts;
    if !f.name.Typename? && w(path).Returns? {
      var v, code := w(path).value, CodeOf(obj, f.name).value;
      if v.UntypedNil? {
        NilCompletes(w, TypeOf(GQLGEN, obj, f.name), f.sels, path);
      } else {
        AssertsIsFits(code.marshal, v);
        if Asserts(code.marshal, v) {
          ValueComes(w, code.marshal, f.sels, v, path);
        }
      }
    }
  }

  lemma ValueComes(w: World, m: Marshal, sels: seq<Field>, v: GoValue, path: Path)
    requires Generated(m) && Asserts(m, v) && ValidatedUnder(Base(TypeFor(m)), sels)
    ensures ComesTo(ValueTask(w, m, sels, v, path), CompleteValue(w, GQLGEN, TypeFor(m), v, sels, path))
    decreases sels, Height(TypeFor(m)), 1
  {
    hide CompleteValue, CompleteInner, ExecuteSelectionSet, ObjectTask, ListTask, TypeFor, Base, Asserts, Height;
    hide TreeOf;
    if m.NLeaf? || m.OLeafPtr? {
      LeafFacts(w, m, sels, v, path);
    } else if m.NList? || m.OList? {
      ListFacts(w, m, sels, v, path);
      if m.NList? || v.Slice? {
        ListComes(w, m.item, sels, if v.Slice? then v.items else [], path);
      }
    } else {
      ObjectFacts(w, m, sels, v, path);
      if v.Struct? {
        ObjectComes(w, m.kind, sels, path);
      }
    }
  }

  lemma ListCombines(rs: seq<Completed>, trees: seq<Tree>)
    requires |trees| == |rs| && forall i :: 0 <= i < |rs| ==> trees[i] == TreeOf(rs[i])
    requires forall i :: 0 <= i < |rs| ==> (TreeOf(rs[i]) == Null <==> rs[i].result.Raised?)
    ensures Combine(ListKind, trees)
         == if AnyRaised(rs) then Null else Arr(seq(|rs|, i requires 0 <= i < |rs| => TreeOf(rs[i])))
  {
    assert AnyRaised(rs) ==> Null in trees;
    assert trees == seq(|rs|, i requires 0 <= i < |rs| => TreeOf(rs[i]));
  }

  lemma ListIsBranch(w: World, item: Marshal, sels: seq<Field>, items: seq<GoValue>, path: Path, rs: seq<Completed>)
    requires rs == ItemResults(w, GQLGEN, TypeFor(item), items, sels, path, |items|)
    ensures ListTask(w, item, sels, items, path) == Branch(ListKind, ItemTasks(w, item, sels, items, path, |items|))
    ensures var c := CompleteInner(w, GQLGEN, ListOf(TypeFor(item)), Slice(items), sels, path);
      && c.errs == AllErrs(rs)
      && TreeOf(c) == if AnyRaised(rs) then Null else Arr(seq(|rs|, i requires 0 <= i < |rs| => TreeOf(rs[i])))
  {
    hide ValueTask, CompleteValue, AllErrs;
  }

  lemma ItemsCome(w: World, item: Marshal, sels: seq<Field>, items: seq<GoValue>, path: Path,
                  tasks: seq<Task>, rs: seq<Completed>)
    requires ByValue(item) && forall i :: 0 <= i < |items| ==> Asserts(item, items[i])
    requires ValidatedUnder(Base(TypeFor(item)), sels)
    requires tasks == ItemTasks(w, item, sels, items, path, |items|)
    requires rs == ItemResults(w, GQLGEN, TypeFor(item), items, sels, path, |items|)
    ensures forall i :: 0 <= i < |items| ==> ComesTo(tasks[i], rs[i])
    decreases sels, Height(TypeFor(item)), 2
  {
    ByValueIsGenerated(item);
    hide ValueTask, CompleteValue, ItemTasks, ItemResults, ValidatedUnder, Asserts, TypeFor, Base, ByValue;
    hide Generated, ComesTo;
    forall i | 0 <= i < |items| ensures ComesTo(tasks[i], rs[i]) {
      ItemTaskAt(w, item, sels, items, path, |items|, i);
      ValueComes(w, item, sels, items[i], path + [Index(i)]);
    }
  }

  lemma ListComes(w: World, item: Marshal, sels: seq<Field>, items: seq<GoValue>, path: Path)
    requires ByValue(item) && forall i :: 0 <= i < |items| ==> Asserts(item, items[i])
    requires ValidatedUnder(Base(TypeFor(item)), sels)
    ensures ComesTo(ListTask(w, item, sels, items, path),
                    CompleteInner(w, GQLGEN, ListOf(TypeFor(item)), Slice(items), sels, path))
    decreases sels, Height(TypeFor(item)), 3
  {
    var rs := ItemResults(w, GQLGEN, TypeFor(item), items, sels, path, |items|);
    var tasks := ItemTasks(w, item, sels, items, path, |items|);
    hide *;
    ItemsCome(w, item, sels, items, path, tasks, rs);
    NullMeansRaised(w, item, sels, items, path, rs);
    ListIsBranch(w, item, sels, items, path, rs);
    ListCombines(rs, Finals(tasks));
    BranchComes(ListKind, tasks, rs, CompleteInner(w, GQLGEN, ListOf(TypeFor(item)), Slice(items), sels, path));
  }

  /** A branch comes to what its children's completions combine to. */
  lemma BranchComes(kind: Kind, tasks: seq<Task>, rs: seq<Completed>, c: Completed)
    requires |tasks| == |rs| && forall i :: 0 <= i < |tasks| ==> ComesTo(tasks[i], rs[i])
    requires TreeOf(c) == Combine(kind, Finals(tasks)) && c.errs == AllErrs(rs)
    ensures ComesTo(Branch(kind, tasks), c)
  {
    AllComeTo(tasks, rs);
  }

  lemma ObjectCombines(obj: ObjectType, sels: seq<Field>, rs: seq<Completed>, trees: seq<Tree>)
    requires |trees| == |rs| == |sels| && forall i :: 0 <= i < |rs| ==> trees[i] == TreeOf(rs[i])
    requires forall i :: 0 <= i < |rs| ==>
      (rs[i].result.Raised? <==> Counts(obj, sels[i].name) && TreeOf(rs[i]) == Null)
    ensures Combine(Fields(obj, sels), trees)
      == if AnyRaised(rs) then Null else Obj(seq(|sels|, i requires 0 <= i < |sels| => (sels[i].key, TreeOf(rs[i]))))
  {
    hide Counts;
    var fields := Fields(obj, sels).fields;
    if AnyRaised(rs) {
      var i :| 0 <= i < |rs| && rs[i].result.Raised?;
      assert fields[i].1 && trees[i] == Null;
    } else {
      assert seq(|trees|, i requires 0 <= i < |trees| => (if i < |fields| then fields[i].0 else "", trees[i]))
          == seq(|sels|, i requires 0 <= i < |sels| => (sels[i].key, TreeOf(rs[i])));
    }
  }

  lemma ObjectComes(w: World, obj: ObjectType, sels: seq<Field>, path: Path)
    requires Validated(obj, sels)
    ensures ComesTo(ObjectTask(w, obj, sels, path), ExecuteSelectionSet(w, GQLGEN, obj, sels, path))
    decreases sels, 0, 1
  {
    var rs := FieldResults(w, GQLGEN, obj, sels, path, |sels|);
    var tasks := FieldTasks(w, obj, sels, path, |sels|);
    assert ObjectTask(w, obj, sels, path) == Branch(Fields(obj, sels), tasks);
    assert ExecuteSelectionSet(w, GQLGEN, obj, sels, path)
        == Completed(if AnyRaised(rs) then Raised
                     else Value(Obj(seq(|sels|, i requires 0 <= i < |sels| => (sels[i].key, TreeOf(rs[i]))))),
                     AllErrs(rs));
    hide FieldTask, ExecuteField, ExecuteSelectionSet, FieldResults, FieldTasks, ObjectTask, ValidatedUnder;
    hide DeclaredType, CodeOf, TypeOf, AllErrs, Counts, Base, Combine, Finals, AllOwed, AnyRaised, Fields;
    forall i | 0 <= i < |sels|
      ensures ComesTo(tasks[i], rs[i])
      ensures rs[i].result.Raised? <==> Counts(obj, sels[i].name) && TreeOf(rs[i]) == Null
    {
      FieldTaskAt(w, obj, sels, path, |sels|, i);
      FieldComes(w, obj, sels[i], path + [Key(sels[i].key)]);
      RaisedIsCounted(w, obj, sels[i], path + [Key(sels[i].key)]);
    }
    AllComeTo(tasks, rs);
    ObjectCombines(obj, sels, rs, Finals(tasks));
  }

  lemma RaisedIsCounted(w: World, obj: ObjectType, f: Field, path: Path)
    requires DeclaredType(obj, f.name).Some?
    requires ValidatedUnder(Base(TypeOf(STANDARD, obj, f.name)), f.sels)
    ensures var c := ExecuteField(w, GQLGEN, obj, f, path);
      c.result.Raised? <==> Counts(obj, f.name) && TreeOf(c) == Null
  {
    FieldIsSound(w, GQLGEN, obj, f, path);
    CodeFollowsSchema(obj, f.name);
    hide DeclaredType, CodeOf, TypeOf, CompleteValue;
    var t := TypeOf(GQLGEN, obj, f.name);
    assert t.NonNull? && ExecuteField(w, GQLGEN, obj, f, path).result.Value? ==>
      TreeOf(ExecuteField(w, GQLGEN, obj, f, path)) != Null;
  }

  /**
   * For every validated operation, every mix of outcomes and every interleaving of all its tasks: no
   * interleaving runs for ever or gets stuck, and each ends with the reference's data and the reference's
   * errors, each once.
   */
  lemma EveryInterleavingIsTheReference(w: World, root: ObjectType, sels: seq<Field>,
                                        acts: seq<seq<nat>>, m: Task, errs: multiset<Path>)
    requires Validated(root, sels)
    requires Leads(ObjectTask(w, root, sels, []), multiset{}, acts, m, errs)
    ensures |acts| <= Size(ObjectTask(w, root, sels, []))
    ensures (forall at :: StepAt(m, errs, at).None?) <==> m.Done?
    ensures m.Done? ==> Completed(Value(m.tree), errs) == Execute(w, GQLGEN, root, sels)
  {
    var n := ObjectTask(w, root, sels, []);
    OwesOnce(w, root, sels);
    hide *;
    RunKeeps(n, multiset{}, acts, m, errs);
    EndsAs(w, root, sels, n, m, errs);
    if !m.Done? {
      var at := CanStep(m, errs);
      assert StepAt(m, errs, at).Some?;
    } else {
      DoneStays(m, errs);
    }
  }

  lemma OwesOnce(w: World, root: ObjectType, sels: seq<Field>)
    requires Validated(root, sels)
    ensures var n, c := ObjectTask(w, root, sels, []), ExecuteSelectionSet(w, GQLGEN, root, sels, []);
      ComesTo(n, c) && Once(multiset{} + Owed(n))
  {
    ObjectComes(w, root, sels, []);
    SelectionIsSound(w, GQLGEN, root, sels, []);
    var c := ExecuteSelectionSet(w, GQLGEN, root, sels, []);
    hide ObjectTask, ExecuteSelectionSet, Owed;
    forall p ensures (multiset{} + c.errs)[p] <= 1 {
      assert p in c.errs ==> c.errs[p] == 1;
    }
  }

  lemma EndsAs(w: World, root: ObjectType, sels: seq<Field>, n: Task, m: Task, errs: multiset<Path>)
    requires ComesTo(n, ExecuteSelectionSet(w, GQLGEN, root, sels, []))
    requires Final(m) == Final(n) && errs + Owed(m) == multiset{} + Owed(n)
    ensures m.Done? ==> Completed(Value(m.tree), errs) == Execute(w, GQLGEN, root, sels)
  {
    hide ExecuteSelectionSet;
    if m.Done? {
      assert errs == multiset{} + Owed(n) == Owed(n);
    }
  }

  lemma DoneStays(m: Task, errs: multiset<Path>)
    requires m.Done?
    ensures forall at :: StepAt(m, errs, at).None?
  {
  }
}

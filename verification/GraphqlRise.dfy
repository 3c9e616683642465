/**
 * A null rises to the nearest nullable ancestor. Every error has left a null at its nearest nullable
 * position or above it, and every null the resolvers did not return themselves was left by an error of
 * which it is the nearest nullable position. `data` itself is nullable.
 */
module GraphqlRise {
  import opened Core
  import opened GraphqlSpec
  import opened GraphqlTheory

  // ---------- The nearest nullable position ----------

  function Find(sels: seq<Field>, key: string): (i: nat)
    ensures i <= |sels| && (i < |sels| ==> sels[i].key == key)
    ensures forall j :: 0 <= j < i ==> sels[j].key != key
  {
    if sels == [] || sels[0].key == key then 0 else 1 + Find(sels[1..], key)
  }

  function Next(k: int): int {
    if k >= 0 then k + 1 else -1
  }

  /** How far down `rest` the last nullable position is, starting with this one; -1 if there is none. */
  function Nearest(rules: Rules, t: TypeRef, sels: seq<Field>, rest: Path): (k: int)
    ensures -1 <= k <= |rest|
    decreases |rest|, Height(t), 1
  {
    var below := NearestBelow(rules, t, sels, rest);
    if below >= 0 then below else if t.NonNull? then -1 else 0
  }

  /** The same, leaving this position out. */
  function NearestBelow(rules: Rules, t: TypeRef, sels: seq<Field>, rest: Path): (k: int)
    ensures -1 <= k <= |rest|
    decreases |rest|, Height(t), 0
  {
    if rest == [] then -1
    else
      match t
      case Scalar => -1
      case NonNull(inner) => NearestBelow(rules, inner, sels, rest)
      case ListOf(item) => if rest[0].Index? then Next(Nearest(rules, item, sels, rest[1..])) else -1
      case Object(o) => NearestIn(rules, o, sels, rest)
  }

  function NearestIn(rules: Rules, obj: ObjectType, sels: seq<Field>, rest: Path): (k: int)
    ensures -1 <= k <= |rest|
    decreases |rest|, 0, 0
  {
    if rest == [] || !rest[0].Key? || Find(sels, rest[0].key) == |sels| then -1
    else
      var f := sels[Find(sels, rest[0].key)];
      Next(Nearest(rules, TypeOf(rules, obj, f.name), f.sels, rest[1..]))
  }

  /** Following `rest` down the tree, some position on the way, the last included, is null. */
  predicate Gone(tree: Tree, rest: Path)
    decreases |rest|
  {
    tree.Null? ||
    (rest != [] &&
     match tree
     case Obj(entries) =>
       exists i :: 0 <= i < |entries| && rest[0] == Key(entries[i].0) && Gone(entries[i].1, rest[1..])
     case Arr(items) => exists i :: 0 <= i < |items| && rest[0] == Index(i) && Gone(items[i], rest[1..])
     case _ => false)
  }

  /** Following `rest` down the tree ends at a null. */
  predicate NullAt(tree: Tree, rest: Path)
    decreases |rest|
  {
    if rest == [] then tree.Null?
    else match tree
      case Obj(entries) =>
        exists i :: 0 <= i < |entries| && rest[0] == Key(entries[i].0) && NullAt(entries[i].1, rest[1..])
      case Arr(items) => exists i :: 0 <= i < |items| && rest[0] == Index(i) && NullAt(items[i], rest[1..])
      case _ => false
  }

  // ---------- Every error leaves a null ----------

  ghost predicate Left(rules: Rules, t: TypeRef, sels: seq<Field>, path: Path, c: Completed, p: Path) {
    path <= p &&
    (c.result.Value? ==>
       var k := Nearest(rules, t, sels, p[|path|..]); k >= 0 && Gone(c.result.tree, p[|path|..][..k]))
  }

  lemma FieldLeaves(w: World, rules: Rules, obj: ObjectType, f: Field, path: Path, p: Path)
    requires DeclaredType(obj, f.name).Some?
    requires ValidatedUnder(Base(TypeOf(STANDARD, obj, f.name)), f.sels)
    requires p in ExecuteField(w, rules, obj, f, path).errs
    ensures Left(rules, TypeOf(rules, obj, f.name), f.sels, path, ExecuteField(w, rules, obj, f, path), p)
    decreases f, 0, 0
  {
    hide DeclaredType, TypeOf, Fits, CompleteValue, Nearest, Gone;
    var t := TypeOf(rules, obj, f.name);
    TypesAreWellFormed(rules, obj, f.name);
    AtThePosition(rules, t, f.sels, path);
    if !f.name.Typename? && w(path).Returns? {
      var v := w(path).value;
      if v.UntypedNil? || Fits(t, v, true) {
        ValueLeaves(w, rules, t, v, f.sels, path, p);
      }
    }
  }

  lemma AtThePosition(rules: Rules, t: TypeRef, sels: seq<Field>, path: Path)
    ensures Left(rules, t, sels, path, Failed(t, path), path)
  {
    assert path[|path|..] == [];
  }

  lemma ValueLeaves(w: World, rules: Rules, t: TypeRef, v: GoValue, sels: seq<Field>, path: Path, p: Path)
    requires WellFormed(t) && ValidatedUnder(Base(t), sels)
    requires p in CompleteValue(w, rules, t, v, sels, path).errs
    ensures Left(rules, t, sels, path, CompleteValue(w, rules, t, v, sels, path), p)
    decreases sels, Height(t), 1
  {
    hide CompleteInner, Gone;
    var inner := if t.NonNull? then t.inner else t;
    var v' := if t.NonNull? && rules.nilSliceIsEmpty && t.inner.ListOf? && v.NilSlice? then Slice([]) else v;
    var c := CompleteInner(w, rules, inner, v', sels, path);
    if p in c.errs {
      InnerLeaves(w, rules, inner, v', sels, path, p);
      if t.NonNull? {
        NearestIs(rules, t, sels, p[|path|..]);
      }
      var k := Nearest(rules, t, sels, p[|path|..]);
      if k >= 0 {
        NullIsGone(p[|path|..][..k]);
      }
    } else {
      assert path[|path|..] == [];
    }
  }

  lemma NearestIs(rules: Rules, t: TypeRef, sels: seq<Field>, rest: Path)
    requires t.NonNull?
    ensures NearestBelow(rules, t, sels, rest) == NearestBelow(rules, t.inner, sels, rest)
    ensures Nearest(rules, t, sels, rest) == NearestBelow(rules, t.inner, sels, rest)
  {
  }

  lemma NullIsGone(rest: Path)
    ensures Gone(Null, rest)
  {
  }

  /** Below an object or list that is not null itself. */
  lemma InnerLeaves(w: World, rules: Rules, t: TypeRef, v: GoValue, sels: seq<Field>, path: Path, p: Path)
    requires !t.NonNull? && WellFormed(t) && ValidatedUnder(Base(t), sels)
    requires p in CompleteInner(w, rules, t, v, sels, path).errs
    ensures var c := CompleteInner(w, rules, t, v, sels, path);
      path <= p && (c.result.Value? ==>
        var k := NearestBelow(rules, t, sels, p[|path|..]); k >= 0 && Gone(c.result.tree, p[|path|..][..k]))
    decreases sels, Height(t), 0
  {
    if t.Object? && v.Struct? {
      SelectionLeaves(w, rules, t.kind, sels, path, p);
    } else if t.ListOf? && v.Slice? {
      hide CompleteValue, AllErrs, ItemResults, Gone, Nearest;
      var rs := ItemResults(w, rules, t.item, v.items, sels, path, |v.items|);
      var i := ErrsHaveASource(rs, p);
      var at := path + [Index(i)];
      ValueLeaves(w, rules, t.item, v.items[i], sels, at, p);
      if CompleteInner(w, rules, t, v, sels, path).result.Value? {
        var tree := CompleteInner(w, rules, t, v, sels, path).result.tree;
        StepDown(path, Index(i), p);
        GoneBelowItem(tree, i, rs[i].result.tree, p[|at|..][..Nearest(rules, t.item, sels, p[|at|..])]);
        TakeNext(p[|path|..], Index(i), p[|at|..], Nearest(rules, t.item, sels, p[|at|..]));
      }
    }
  }

  lemma StepDown(path: Path, s: Step, p: Path)
    requires path + [s] <= p
    ensures p[|path|..] == [s] + p[|path| + 1..] && p[|path|..][0] == s && p[|path|..][1..] == p[|path| + 1..]
  {
    assert p[|path|] == (path + [s])[|path|] == s;
  }

  lemma TakeNext(rest: Path, s: Step, tail: Path, k: int)
    requires rest == [s] + tail && 0 <= k <= |tail|
    ensures rest[..k + 1] == [s] + tail[..k]
  {
  }

  lemma GoneBelowItem(tree: Tree, i: nat, child: Tree, rest: Path)
    requires tree.Arr? && i < |tree.items| && tree.items[i] == child && Gone(child, rest)
    ensures Gone(tree, [Index(i)] + rest)
  {
    assert ([Index(i)] + rest)[1..] == rest;
  }

  lemma GoneBelowField(tree: Tree, i: nat, child: Tree, rest: Path)
    requires tree.Obj? && i < |tree.entries| && tree.entries[i].1 == child && Gone(child, rest)
    ensures Gone(tree, [Key(tree.entries[i].0)] + rest)
  {
    assert ([Key(tree.entries[i].0)] + rest)[1..] == rest;
  }

  lemma SelectionLeaves(w: World, rules: Rules, obj: ObjectType, sels: seq<Field>, path: Path, p: Path)
    requires Validated(obj, sels)
    requires p in ExecuteSelectionSet(w, rules, obj, sels, path).errs
    ensures var c := ExecuteSelectionSet(w, rules, obj, sels, path);
      path <= p && (c.result.Value? ==>
        var k := NearestIn(rules, obj, sels, p[|path|..]); k >= 0 && Gone(c.result.tree, p[|path|..][..k]))
    decreases sels, 0, 0
  {
    hide ExecuteField, AllErrs, FieldResults, DeclaredType, TypeOf, Gone, Nearest, ValidatedUnder;
    var rs := FieldResults(w, rules, obj, sels, path, |sels|);
    var i := ErrsHaveASource(rs, p);
    var at := path + [Key(sels[i].key)];
    FieldLeaves(w, rules, obj, sels[i], at, p);
    StepDown(path, Key(sels[i].key), p);
    FindIs(sels, i);
    if ExecuteSelectionSet(w, rules, obj, sels, path).result.Value? {
      var tree := ExecuteSelectionSet(w, rules, obj, sels, path).result.tree;
      var k := Nearest(rules, TypeOf(rules, obj, sels[i].name), sels[i].sels, p[|at|..]);
      GoneBelowField(tree, i, rs[i].result.tree, p[|at|..][..k]);
      TakeNext(p[|path|..], Key(sels[i].key), p[|at|..], k);
    }
  }

  lemma FindIs(sels: seq<Field>, i: nat)
    requires i < |sels| && forall j, k :: 0 <= j < k < |sels| ==> sels[j].key != sels[k].key
    ensures Find(sels, sels[i].key) == i
  {
  }

  // ---------- Every null has a cause ----------

  /** The resolver itself returned null at this position. */
  predicate GivenNull(w: World, q: Path) {
    w(q).Returns? && IsNull(w(q).value)
  }

  /** The schema's lists have items of non-null type. */
  predicate ListsOfNonNull(t: TypeRef) {
    match t
    case ListOf(item) => item.NonNull? && ListsOfNonNull(item)
    case NonNull(inner) => ListsOfNonNull(inner)
    case _ => true
  }

  lemma SchemaLists(rules: Rules, obj: ObjectType, name: FieldName)
    ensures ListsOfNonNull(TypeOf(rules, obj, name))
  {
  }

  /** An error that raised the selection set: every position from here down to it is of non-null type. */
  lemma SelectionHasCause(w: World, rules: Rules, obj: ObjectType, sels: seq<Field>, path: Path) returns (p: Path)
    requires Validated(obj, sels) && ExecuteSelectionSet(w, rules, obj, sels, path).result.Raised?
    ensures p in ExecuteSelectionSet(w, rules, obj, sels, path).errs && path <= p
    ensures NearestIn(rules, obj, sels, p[|path|..]) == -1
    decreases sels, 0, 0
  {
    hide ExecuteField, AllErrs, FieldResults, DeclaredType, TypeOf, Nearest, ValidatedUnder;
    var rs := FieldResults(w, rules, obj, sels, path, |sels|);
    var i: nat :| i < |sels| && rs[i].result.Raised?;
    var at := path + [Key(sels[i].key)];
    p := FieldHasCause(w, rules, obj, sels[i], at);
    ErrsIncluded(rs, i);
    StepDown(path, Key(sels[i].key), p);
    FindIs(sels, i);
  }

  lemma FieldHasCause(w: World, rules: Rules, obj: ObjectType, f: Field, path: Path) returns (p: Path)
    requires DeclaredType(obj, f.name).Some?
    requires ValidatedUnder(Base(TypeOf(STANDARD, obj, f.name)), f.sels)
    requires ExecuteField(w, rules, obj, f, path).result.Raised?
    ensures p in ExecuteField(w, rules, obj, f, path).errs && path <= p
    ensures Nearest(rules, TypeOf(rules, obj, f.name), f.sels, p[|path|..]) == -1
    decreases f, 0, 0
  {
    hide DeclaredType, TypeOf, Fits, CompleteValue;
    var t := TypeOf(rules, obj, f.name);
    TypesAreWellFormed(rules, obj, f.name);
    p := path;
    assert path[|path|..] == [];
    if w(path).Returns? {
      var v := w(path).value;
      if v.UntypedNil? || Fits(t, v, true) {
        p := ValueHasCause(w, rules, t, v, f.sels, path);
      }
    }
  }

  lemma ValueHasCause(w: World, rules: Rules, t: TypeRef, v: GoValue, sels: seq<Field>, path: Path) returns (p: Path)
    requires WellFormed(t) && ValidatedUnder(Base(t), sels)
    requires CompleteValue(w, rules, t, v, sels, path).result.Raised?
    ensures p in CompleteValue(w, rules, t, v, sels, path).errs && path <= p
    ensures Nearest(rules, t, sels, p[|path|..]) == -1
    decreases sels, Height(t), 1
  {
    hide CompleteInner;
    var v' := if rules.nilSliceIsEmpty && t.inner.ListOf? && v.NilSlice? then Slice([]) else v;
    p := path;
    assert path[|path|..] == [];
    if CompleteInner(w, rules, t.inner, v', sels, path).result.Raised? {
      p := InnerHasCause(w, rules, t.inner, v', sels, path);
    }
  }

  lemma InnerHasCause(w: World, rules: Rules, t: TypeRef, v: GoValue, sels: seq<Field>, path: Path) returns (p: Path)
    requires !t.NonNull? && WellFormed(t) && ValidatedUnder(Base(t), sels)
    requires CompleteInner(w, rules, t, v, sels, path).result.Raised?
    ensures p in CompleteInner(w, rules, t, v, sels, path).errs && path <= p
    ensures NearestBelow(rules, t, sels, p[|path|..]) == -1
    decreases sels, Height(t), 0
  {
    if t.Object? && v.Struct? {
      hide ExecuteSelectionSet;
      p := SelectionHasCause(w, rules, t.kind, sels, path);
    } else if t.ListOf? && v.Slice? {
      p := ItemHasCause(w, rules, t, v, sels, path);
    } else {
      p := path;
      assert path[|path|..] == [];
    }
  }

  lemma ItemHasCause(w: World, rules: Rules, t: TypeRef, v: GoValue, sels: seq<Field>, path: Path) returns (p: Path)
    requires t.ListOf? && v.Slice? && WellFormed(t) && ValidatedUnder(Base(t), sels)
    requires CompleteInner(w, rules, t, v, sels, path).result.Raised?
    ensures p in CompleteInner(w, rules, t, v, sels, path).errs && path <= p
    ensures NearestBelow(rules, t, sels, p[|path|..]) == -1
    decreases sels, Height(t), 0, 0
  {
    hide CompleteValue, AllErrs, ItemResults, Nearest, ValidatedUnder;
    var rs := ItemResults(w, rules, t.item, v.items, sels, path, |v.items|);
    assert CompleteInner(w, rules, t, v, sels, path).errs == AllErrs(rs);
    var i: nat :| i < |rs| && rs[i].result.Raised?;
    hide CompleteInner;
    p := ValueHasCause(w, rules, t.item, v.items[i], sels, path + [Index(i)]);
    ErrsIncluded(rs, i);
    StepDown(path, Index(i), p);
  }

  /** The null at `rest` below the position was returned by its resolver, or left by the error `p`. */
  ghost predicate Caused(w: World, rules: Rules, t: TypeRef, sels: seq<Field>, path: Path, rest: Path,
                         errs: multiset<Path>, p: Path) {
    GivenNull(w, path + rest)
    || (p in errs && path + rest <= p && Nearest(rules, t, sels, p[|path|..]) == |rest|)
  }

  lemma FieldNullHasCause(w: World, rules: Rules, obj: ObjectType, f: Field, path: Path, rest: Path) returns (p: Path)
    requires DeclaredType(obj, f.name).Some?
    requires ValidatedUnder(Base(TypeOf(STANDARD, obj, f.name)), f.sels)
    requires var c := ExecuteField(w, rules, obj, f, path); c.result.Value? && NullAt(c.result.tree, rest)
    ensures Caused(w, rules, TypeOf(rules, obj, f.name), f.sels, path, rest,
                   ExecuteField(w, rules, obj, f, path).errs, p)
    decreases f, 0, 0
  {
    hide DeclaredType, TypeOf, Fits, CompleteValue;
    var t := TypeOf(rules, obj, f.name);
    TypesAreWellFormed(rules, obj, f.name);
    SchemaLists(rules, obj, f.name);
    p := path;
    assert path[|path|..] == [] && path + [] == path;
    if !f.name.Typename? && w(path).Returns? {
      var v := w(path).value;
      if v.UntypedNil? || Fits(t, v, true) {
        if IsNull(v) && rest == [] {
        } else {
          p := ValueNullHasCause(w, rules, t, v, f.sels, path, rest);
        }
      }
    }
  }

  lemma ValueNullHasCause(w: World, rules: Rules, t: TypeRef, v: GoValue, sels: seq<Field>, path: Path, rest: Path)
    returns (p: Path)
    requires WellFormed(t) && ListsOfNonNull(t) && ValidatedUnder(Base(t), sels)
    requires var c := CompleteValue(w, rules, t, v, sels, path); c.result.Value? && NullAt(c.result.tree, rest)
    requires rest == [] ==> !IsNull(v)
    ensures Caused(w, rules, t, sels, path, rest, CompleteValue(w, rules, t, v, sels, path).errs, p)
    decreases sels, Height(t), 1
  {
    hide CompleteInner;
    var inner := if t.NonNull? then t.inner else t;
    var v' := if t.NonNull? && rules.nilSliceIsEmpty && t.inner.ListOf? && v.NilSlice? then Slice([]) else v;
    var c := CompleteInner(w, rules, inner, v', sels, path);
    OnlyNullIsNull(w, rules, inner, v', sels, path);
    if c.result.Raised? {
      assert !t.NonNull? && rest == [] && path + [] == path;
      p := InnerHasCause(w, rules, inner, v', sels, path);
    } else {
      p := InnerNullHasCause(w, rules, inner, v', sels, path, rest);
      if t.NonNull? && !GivenNull(w, path + rest) {
        NearestIs(rules, t, sels, p[|path|..]);
      }
    }
  }

  lemma OnlyNullIsNull(w: World, rules: Rules, t: TypeRef, v: GoValue, sels: seq<Field>, path: Path)
    ensures CompleteInner(w, rules, t, v, sels, path).result == Value(Null) <==> IsNull(v)
  {
  }

  lemma InnerNullHasCause(w: World, rules: Rules, t: TypeRef, v: GoValue, sels: seq<Field>, path: Path, rest: Path)
    returns (p: Path)
    requires !t.NonNull? && WellFormed(t) && ListsOfNonNull(t) && ValidatedUnder(Base(t), sels) && rest != []
    requires var c := CompleteInner(w, rules, t, v, sels, path); c.result.Value? && NullAt(c.result.tree, rest)
    ensures GivenNull(w, path + rest)
      || (p in CompleteInner(w, rules, t, v, sels, path).errs && path + rest <= p
          && NearestBelow(rules, t, sels, p[|path|..]) == |rest|)
    decreases sels, Height(t), 0
  {
    p := [];
    if t.Object? && v.Struct? {
      hide ExecuteSelectionSet, NullAt, GivenNull;
      p := SelectionNullHasCause(w, rules, t.kind, sels, path, rest);
    } else if t.ListOf? && v.Slice? {
      p := ItemNullHasCause(w, rules, t, v, sels, path, rest);
    }
  }

  lemma ItemNullHasCause(w: World, rules: Rules, t: TypeRef, v: GoValue, sels: seq<Field>, path: Path, rest: Path)
    returns (p: Path)
    requires t.ListOf? && v.Slice? && WellFormed(t) && ListsOfNonNull(t) && ValidatedUnder(Base(t), sels) && rest != []
    requires var c := CompleteInner(w, rules, t, v, sels, path); c.result.Value? && NullAt(c.result.tree, rest)
    ensures GivenNull(w, path + rest)
      || (p in CompleteInner(w, rules, t, v, sels, path).errs && path + rest <= p
          && NearestBelow(rules, t, sels, p[|path|..]) == |rest|)
    decreases sels, Height(t), 0, 0
  {
    hide CompleteValue, AllErrs, ItemResults, Nearest, ValidatedUnder, GivenNull;
    var rs := ItemResults(w, rules, t.item, v.items, sels, path, |v.items|);
    var tree := CompleteInner(w, rules, t, v, sels, path).result.tree;
    assert tree.Arr? && |tree.items| == |rs| && CompleteInner(w, rules, t, v, sels, path).errs == AllErrs(rs);
    var i: nat :| i < |rs| && rest[0] == Index(i) && NullAt(tree.items[i], rest[1..]);
    assert rs[i].result.Value? && tree.items[i] == rs[i].result.tree;
    hide CompleteInner;
    var at := path + [Index(i)];
    NonNullIsNotNull(w, rules, t.item, v.items[i], sels, at);
    p := ValueNullHasCause(w, rules, t.item, v.items[i], sels, at, rest[1..]);
    assert at + rest[1..] == path + rest;
    ErrsIncluded(rs, i);
    if !GivenNull(w, path + rest) {
      StepDown(path, Index(i), p);
    }
  }

  lemma NonNullIsNotNull(w: World, rules: Rules, t: TypeRef, v: GoValue, sels: seq<Field>, path: Path)
    requires t.NonNull? && CompleteValue(w, rules, t, v, sels, path).result.Value?
    ensures CompleteValue(w, rules, t, v, sels, path).result.tree != Null
  {
  }

  lemma SelectionNullHasCause(w: World, rules: Rules, obj: ObjectType, sels: seq<Field>, path: Path, rest: Path)
    returns (p: Path)
    requires Validated(obj, sels) && rest != []
    requires var c := ExecuteSelectionSet(w, rules, obj, sels, path); c.result.Value? && NullAt(c.result.tree, rest)
    ensures GivenNull(w, path + rest)
      || (p in ExecuteSelectionSet(w, rules, obj, sels, path).errs && path + rest <= p
          && NearestIn(rules, obj, sels, p[|path|..]) == |rest|)
    decreases sels, 0, 0
  {
    hide ExecuteField, AllErrs, FieldResults, DeclaredType, TypeOf, Nearest, ValidatedUnder, GivenNull;
    var rs := FieldResults(w, rules, obj, sels, path, |sels|);
    var tree := ExecuteSelectionSet(w, rules, obj, sels, path).result.tree;
    var i: nat :| i < |sels| && rest[0] == Key(tree.entries[i].0) && NullAt(tree.entries[i].1, rest[1..]);
    var at := path + [Key(sels[i].key)];
    p := FieldNullHasCause(w, rules, obj, sels[i], at, rest[1..]);
    assert at + rest[1..] == path + rest;
    ErrsIncluded(rs, i);
    if !GivenNull(w, path + rest) {
      StepDown(path, Key(sels[i].key), p);
      FindIs(sels, i);
    }
  }

  // ---------- The whole response ----------

  /** How far down an error's path its nearest nullable position is; `data`, at the top, is nullable. */
  function NearestNullable(rules: Rules, root: ObjectType, sels: seq<Field>, p: Path): (k: nat)
    ensures k <= |p|
  {
    var k := NearestIn(rules, root, sels, p);
    if k >= 0 then k else 0
  }

  /** Every error has left a null at its nearest nullable position, or above it. */
  lemma EveryErrorLeavesANull(w: World, rules: Rules, root: ObjectType, sels: seq<Field>, p: Path)
    requires Validated(root, sels) && p in Execute(w, rules, root, sels).errs
    ensures Gone(Execute(w, rules, root, sels).result.tree, p[..NearestNullable(rules, root, sels, p)])
  {
    hide ExecuteSelectionSet;
    SelectionLeaves(w, rules, root, sels, [], p);
    assert p[0..] == p;
  }

  /**
   * Every null in the response was returned by the resolver at that very position, or it is the nearest
   * nullable position of some error below it.
   */
  lemma EveryNullHasACause(w: World, rules: Rules, root: ObjectType, sels: seq<Field>, q: Path) returns (p: Path)
    requires Validated(root, sels) && NullAt(Execute(w, rules, root, sels).result.tree, q)
    ensures (q != [] && GivenNull(w, q))
      || (p in Execute(w, rules, root, sels).errs && q <= p && NearestNullable(rules, root, sels, p) == |q|)
  {
    SelectionShown(w, rules, root, sels);
    hide ExecuteSelectionSet;
    if ExecuteSelectionSet(w, rules, root, sels, []).result.Raised? {
      p := SelectionHasCause(w, rules, root, sels, []);
    } else {
      p := SelectionNullHasCause(w, rules, root, sels, [], q);
      assert [] + q == q;
    }
    assert p[0..] == p;
  }

  lemma SelectionShown(w: World, rules: Rules, root: ObjectType, sels: seq<Field>)
    ensures ExecuteSelectionSet(w, rules, root, sels, []).result != Value(Null)
  {
  }
}

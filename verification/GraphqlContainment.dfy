/**
 * A null rises to the nearest nullable ancestor and no further: whatever
 * happens below a nullable position, nothing outside that position changes.
 */
module GraphqlContainment {
  import opened Core
  import opened GraphqlSpec
  import opened GraphqlTheory

  /** The worlds give the same outcome at every position not at or below q. */
  ghost predicate SameOff(w: World, w': World, q: Path) {
    forall p :: !(q <= p) ==> w(p) == w'(p)
  }

  ghost predicate SameUnder(w: World, w': World, path: Path) {
    forall p :: path <= p ==> w(p) == w'(p)
  }

  /** Following `rest` down from a selection set ends at a nullable position. */
  predicate NullableAt(rules: Rules, obj: ObjectType, sels: seq<Field>, rest: Path)
    decreases |rest|, 0
  {
    rest != [] && rest[0].Key?
    && exists i :: 0 <= i < |sels| && sels[i].key == rest[0].key
                   && NullableIn(rules, TypeOf(rules, obj, sels[i].name), sels[i].sels, rest[1..])
  }

  predicate NullableIn(rules: Rules, t: TypeRef, sels: seq<Field>, rest: Path)
    decreases |rest|, Height(t)
  {
    if rest == [] then !t.NonNull?
    else match t
      case NonNull(inner) => NullableIn(rules, inner, sels, rest)
      case ListOf(item) => rest[0].Index? && NullableIn(rules, item, sels, rest[1..])
      case Object(o) => NullableAt(rules, o, sels, rest)
      case Scalar => false
  }

  /** The trees are equal except possibly at or below the position `rest`. */
  predicate EqualOff(a: Tree, b: Tree, rest: Path)
    decreases |rest|
  {
    rest == [] || a == b
    || (a.Obj? && b.Obj? && |a.entries| == |b.entries|
        && forall i :: 0 <= i < |a.entries| ==>
          a.entries[i].0 == b.entries[i].0
          && if rest[0] == Key(a.entries[i].0) then EqualOff(a.entries[i].1, b.entries[i].1, rest[1..])
             else a.entries[i].1 == b.entries[i].1)
    || (a.Arr? && b.Arr? && |a.items| == |b.items|
        && forall i :: 0 <= i < |a.items| ==>
          if rest[0] == Index(i) then EqualOff(a.items[i], b.items[i], rest[1..]) else a.items[i] == b.items[i])
  }

  ghost predicate ErrsEqualOff(a: multiset<Path>, b: multiset<Path>, q: Path) {
    forall p :: !(q <= p) ==> a[p] == b[p]
  }

  /** Same fate, same tree outside the position, same errors outside it. */
  ghost predicate Alike(c: Completed, c': Completed, rest: Path, q: Path) {
    && c.result.Raised? == c'.result.Raised?
    && EqualOff(TreeOf(c), TreeOf(c'), rest)
    && ErrsEqualOff(c.errs, c'.errs, q)
  }

  // ---------- A result depends only on the outcomes at and below its position ----------

  lemma SameBelow(w: World, w': World, path: Path, s: Step)
    requires SameUnder(w, w', path)
    ensures SameUnder(w, w', path + [s])
  {
  }

  lemma FieldIsLocal(w: World, w': World, rules: Rules, obj: ObjectType, f: Field, path: Path)
    requires SameUnder(w, w', path)
    ensures ExecuteField(w, rules, obj, f, path) == ExecuteField(w', rules, obj, f, path)
    decreases f, 0, 0
  {
    hide CompleteValue;
    var t := TypeOf(rules, obj, f.name);
    assert w(path) == w'(path);
    if !f.name.Typename? && w(path).Returns? {
      ValueIsLocal(w, w', rules, t, w(path).value, f.sels, path);
    }
  }

  lemma SelectionIsLocal(w: World, w': World, rules: Rules, obj: ObjectType, sels: seq<Field>, path: Path)
    requires SameUnder(w, w', path)
    ensures ExecuteSelectionSet(w, rules, obj, sels, path) == ExecuteSelectionSet(w', rules, obj, sels, path)
    decreases sels, 0, 0
  {
    hide ExecuteField, AllErrs, FieldResults;
    forall i | 0 <= i < |sels|
      ensures ExecuteField(w, rules, obj, sels[i], path + [Key(sels[i].key)])
           == ExecuteField(w', rules, obj, sels[i], path + [Key(sels[i].key)])
    {
      SameBelow(w, w', path, Key(sels[i].key));
      FieldIsLocal(w, w', rules, obj, sels[i], path + [Key(sels[i].key)]);
    }
    assert FieldResults(w, rules, obj, sels, path, |sels|) == FieldResults(w', rules, obj, sels, path, |sels|);
  }

  lemma ValueIsLocal(w: World, w': World, rules: Rules, t: TypeRef, v: GoValue, sels: seq<Field>, path: Path)
    requires SameUnder(w, w', path)
    ensures CompleteValue(w, rules, t, v, sels, path) == CompleteValue(w', rules, t, v, sels, path)
    decreases sels, Height(t), 1
  {
    hide CompleteInner;
    if t.NonNull? {
      var v' := if rules.nilSliceIsEmpty && t.inner.ListOf? && v.NilSlice? then Slice([]) else v;
      InnerIsLocal(w, w', rules, t.inner, v', sels, path);
    } else {
      InnerIsLocal(w, w', rules, t, v, sels, path);
    }
  }

  lemma InnerIsLocal(w: World, w': World, rules: Rules, t: TypeRef, v: GoValue, sels: seq<Field>, path: Path)
    requires SameUnder(w, w', path)
    ensures CompleteInner(w, rules, t, v, sels, path) == CompleteInner(w', rules, t, v, sels, path)
    decreases sels, Height(t), 0
  {
    hide CompleteValue, AllErrs, ItemResults, ExecuteSelectionSet;
    if t.Object? {
      SelectionIsLocal(w, w', rules, t.kind, sels, path);
    } else if t.ListOf? && v.Slice? {
      forall i | 0 <= i < |v.items|
        ensures CompleteValue(w, rules, t.item, v.items[i], sels, path + [Index(i)])
             == CompleteValue(w', rules, t.item, v.items[i], sels, path + [Index(i)])
      {
        SameBelow(w, w', path, Index(i));
        ValueIsLocal(w, w', rules, t.item, v.items[i], sels, path + [Index(i)]);
      }
      assert ItemResults(w, rules, t.item, v.items, sels, path, |v.items|)
          == ItemResults(w', rules, t.item, v.items, sels, path, |v.items|);
    }
  }

  // ---------- Containment ----------

  lemma Diverges(w: World, w': World, q: Path, path: Path, s: Step)
    requires SameOff(w, w', q)
    requires path < q && q[|path|] != s
    ensures SameUnder(w, w', path + [s])
  {
  }

  lemma {:induction false} ErrsStayAlike(rs: seq<Completed>, rs': seq<Completed>, q: Path)
    requires |rs| == |rs'|
    requires forall i :: 0 <= i < |rs| ==> ErrsEqualOff(rs[i].errs, rs'[i].errs, q)
    ensures ErrsEqualOff(AllErrs(rs), AllErrs(rs'), q)
  {
    if rs != [] {
      ErrsStayAlike(rs[..|rs| - 1], rs'[..|rs| - 1], q);
    }
  }

  lemma FieldIsContained(w: World, w': World, rules: Rules, obj: ObjectType, f: Field, path: Path, q: Path)
    requires SameOff(w, w', q) && path <= q
    requires DeclaredType(obj, f.name).Some?
    requires ValidatedUnder(Base(TypeOf(STANDARD, obj, f.name)), f.sels)
    requires NullableIn(rules, TypeOf(rules, obj, f.name), f.sels, q[|path|..])
    ensures Alike(ExecuteField(w, rules, obj, f, path), ExecuteField(w', rules, obj, f, path), q[|path|..], q)
    decreases f, 0, 0
  {
    hide DeclaredType, TypeOf, Fits, CompleteValue, ValidatedUnder, Conforms;
    assert q[|q|..] == [];
    TypesAreWellFormed(rules, obj, f.name);
    var t := TypeOf(rules, obj, f.name);
    FieldIsSound(w, rules, obj, f, path);
    FieldIsSound(w', rules, obj, f, path);
    if path == q {
      AtThePosition(ExecuteField(w, rules, obj, f, path), ExecuteField(w', rules, obj, f, path), q);
    } else {
      assert w(path) == w'(path);
      if !f.name.Typename? && w(path).Returns? {
        ValueIsContained(w, w', rules, t, w(path).value, f.sels, path, q);
      }
    }
  }

  lemma AtThePosition(c: Completed, c': Completed, q: Path)
    requires Tidy(c.errs, q) && Tidy(c'.errs, q)
    requires c.result.Value? && c'.result.Value?
    ensures Alike(c, c', q[|q|..], q)
  {
  }

  lemma ValueIsContained(w: World, w': World, rules: Rules, t: TypeRef, v: GoValue, sels: seq<Field>, path: Path,
                         q: Path)
    requires SameOff(w, w', q) && path <= q
    requires WellFormed(t) && ValidatedUnder(Base(t), sels)
    requires NullableIn(rules, t, sels, q[|path|..])
    ensures Alike(CompleteValue(w, rules, t, v, sels, path), CompleteValue(w', rules, t, v, sels, path), q[|path|..], q)
    decreases sels, Height(t), 1
  {
    hide CompleteInner;
    if path == q {
      ValueIsSound(w, rules, t, v, sels, path);
      ValueIsSound(w', rules, t, v, sels, path);
      AtThePosition(CompleteValue(w, rules, t, v, sels, path), CompleteValue(w', rules, t, v, sels, path), q);
    } else if t.NonNull? {
      var v' := if rules.nilSliceIsEmpty && t.inner.ListOf? && v.NilSlice? then Slice([]) else v;
      InnerIsContained(w, w', rules, t.inner, v', sels, path, q);
    } else {
      InnerIsContained(w, w', rules, t, v, sels, path, q);
    }
  }

  lemma SelectionShape(w: World, rules: Rules, obj: ObjectType, sels: seq<Field>, path: Path)
    ensures ExecuteSelectionSet(w, rules, obj, sels, path).result != Value(Null)
  {
  }

  lemma InnerIsContained(w: World, w': World, rules: Rules, t: TypeRef, v: GoValue, sels: seq<Field>, path: Path,
                         q: Path)
    requires SameOff(w, w', q) && path < q
    requires !t.NonNull? && WellFormed(t) && ValidatedUnder(Base(t), sels)
    requires NullableIn(rules, t, sels, q[|path|..])
    ensures Alike(CompleteInner(w, rules, t, v, sels, path), CompleteInner(w', rules, t, v, sels, path), q[|path|..], q)
    ensures CompleteInner(w, rules, t, v, sels, path).result.Value? ==>
      (CompleteInner(w, rules, t, v, sels, path).result.tree.Null?
       <==> CompleteInner(w', rules, t, v, sels, path).result.tree.Null?)
    decreases sels, Height(t), 0
  {
    hide ExecuteSelectionSet, ItemResults, CompleteValue, AllErrs, Validated, NullableAt;
    if t.Object? {
      SelectionShape(w, rules, t.kind, sels, path);
      SelectionShape(w', rules, t.kind, sels, path);
      SelectionIsContained(w, w', rules, t.kind, sels, path, q);
    } else if t.ListOf? && v.Slice? {
      ItemsAreContained(w, w', rules, t, v, sels, path, q);
    }
  }

  lemma ItemsAreContained(w: World, w': World, rules: Rules, t: TypeRef, v: GoValue, sels: seq<Field>, path: Path,
                          q: Path)
    requires SameOff(w, w', q) && path < q
    requires t.ListOf? && v.Slice? && WellFormed(t) && ValidatedUnder(Base(t), sels)
    requires NullableIn(rules, t, sels, q[|path|..])
    ensures Alike(CompleteInner(w, rules, t, v, sels, path), CompleteInner(w', rules, t, v, sels, path), q[|path|..], q)
    ensures CompleteInner(w, rules, t, v, sels, path).result.Value? ==>
      CompleteInner(w, rules, t, v, sels, path).result.tree.Arr?
          && CompleteInner(w', rules, t, v, sels, path).result.tree.Arr?
    decreases sels, Height(t), 0, 0
  {
    hide CompleteValue, AllErrs, ItemResults, Validated, ExecuteSelectionSet;
    var n := |v.items|;
    var rest := q[|path|..];
    var rs := ItemResults(w, rules, t.item, v.items, sels, path, n);
    var rs' := ItemResults(w', rules, t.item, v.items, sels, path, n);
    forall i | 0 <= i < n
      ensures rs[i] == rs'[i] || (rest[0] == Index(i) && Alike(rs[i], rs'[i], rest[1..], q))
    {
      var at := path + [Index(i)];
      if rest[0] == Index(i) {
        assert at <= q && q[|at|..] == rest[1..];
        ValueIsContained(w, w', rules, t.item, v.items[i], sels, at, q);
      } else {
        Diverges(w, w', q, path, Index(i));
        ValueIsLocal(w, w', rules, t.item, v.items[i], sels, at);
      }
    }
    ErrsStayAlike(rs, rs', q);
  }

  lemma SelectionIsContained(w: World, w': World, rules: Rules, obj: ObjectType, sels: seq<Field>, path: Path, q: Path)
    requires SameOff(w, w', q) && path < q
    requires Validated(obj, sels) && NullableAt(rules, obj, sels, q[|path|..])
    ensures Alike(ExecuteSelectionSet(w, rules, obj, sels, path), ExecuteSelectionSet(w', rules, obj, sels, path),
        q[|path|..], q)
    decreases sels, 0, 0
  {
    hide ExecuteField, AllErrs, FieldResults, DeclaredType, TypeOf, ValidatedUnder, NullableIn, Base;
    var n := |sels|;
    var rest := q[|path|..];
    var rs := FieldResults(w, rules, obj, sels, path, n);
    var rs' := FieldResults(w', rules, obj, sels, path, n);
    forall i | 0 <= i < n
      ensures rs[i] == rs'[i] || (rest[0] == Key(sels[i].key) && Alike(rs[i], rs'[i], rest[1..], q))
    {
      var at := path + [Key(sels[i].key)];
      if rest[0] == Key(sels[i].key) {
        assert at <= q && q[|at|..] == rest[1..];
        FieldIsContained(w, w', rules, obj, sels[i], at, q);
      } else {
        Diverges(w, w', q, path, Key(sels[i].key));
        FieldIsLocal(w, w', rules, obj, sels[i], at);
      }
    }
    ErrsStayAlike(rs, rs', q);
  }

  /**
   * Two runs that differ only at and below a nullable position give the same
   * response outside it: same data around it, same errors elsewhere.
   */
  lemma FailuresAreContained(w: World, w': World, rules: Rules, root: ObjectType, sels: seq<Field>, q: Path)
    requires Validated(root, sels)
    requires NullableAt(rules, root, sels, q)
    requires SameOff(w, w', q)
    ensures var c, c' := Execute(w, rules, root, sels), Execute(w', rules, root, sels);
      && EqualOff(c.result.tree, c'.result.tree, q)
      && forall p :: !(q <= p) ==> c.errs[p] == c'.errs[p]
  {
    assert q[0..] == q;
    SelectionIsContained(w, w', rules, root, sels, [], q);
  }
}

/** What null propagation guarantees: a well-typed tree, one error a position, and errors that stay contained. */
module GraphqlTheory {
  import opened Core
  import opened GraphqlSpec

  // ---------- The response has the declared shape ----------

  /** The tree is a value of type t: its keys are those selected, in order, and no null sits at a non-null type. */
  predicate Conforms(rules: Rules, t: TypeRef, tree: Tree, sels: seq<Field>)
    decreases sels, Height(t)
  {
    match t
    case NonNull(inner) => tree != Null && Conforms(rules, inner, tree, sels)
    case Scalar => tree.Null? || tree.Text?
    case ListOf(item) =>
      tree.Null? || (tree.Arr? && forall i :: 0 <= i < |tree.items| ==> Conforms(rules, item, tree.items[i], sels))
    case Object(o) => tree.Null? || ObjectConforms(rules, o, tree, sels)
  }

  predicate ObjectConforms(rules: Rules, obj: ObjectType, tree: Tree, sels: seq<Field>)
    decreases sels, 0
  {
    tree.Obj? && |tree.entries| == |sels|
    && forall i :: 0 <= i < |sels| ==>
      tree.entries[i].0 == sels[i].key
      && Conforms(rules, TypeOf(rules, obj, sels[i].name), tree.entries[i].1, sels[i].sels)
  }

  /** Every error lies at or below the position, and no position has two. */
  ghost predicate Tidy(errs: multiset<Path>, path: Path) {
    forall p :: p in errs ==> path <= p && errs[p] == 1
  }

  /** A raised result carries an error, a value has its type, and only a non-null position raises. */
  ghost predicate Sound(rules: Rules, t: TypeRef, sels: seq<Field>, path: Path, c: Completed) {
    && Tidy(c.errs, path)
    && (c.result.Raised? ==> t.NonNull? && c.errs != multiset{})
    && (c.result.Value? ==> Conforms(rules, t, c.result.tree, sels))
  }

  lemma {:induction false} ErrsIncluded(rs: seq<Completed>, i: nat)
    requires i < |rs|
    ensures rs[i].errs <= AllErrs(rs)
  {
    if i < |rs| - 1 {
      ErrsIncluded(rs[..|rs| - 1], i);
    }
  }

  lemma {:induction false} ErrsHaveASource(rs: seq<Completed>, p: Path) returns (i: nat)
    requires p in AllErrs(rs)
    ensures i < |rs| && p in rs[i].errs
  {
    i := |rs| - 1;
    if p !in rs[i].errs {
      i := ErrsHaveASource(rs[..|rs| - 1], p);
    }
  }

  lemma NextStep(path: Path, s: Step, s': Step, p: Path)
    requires path + [s] <= p && path + [s'] <= p
    ensures s == s'
  {
    assert (path + [s])[|path|] == p[|path|] == (path + [s'])[|path|];
  }

  /** Positions under distinct steps have distinct errors. */
  lemma {:induction false} SiblingErrorsAreTidy(rs: seq<Completed>, path: Path, steps: seq<Step>)
    requires |rs| == |steps|
    requires forall i, j :: 0 <= i < j < |steps| ==> steps[i] != steps[j]
    requires forall i :: 0 <= i < |rs| ==> Tidy(rs[i].errs, path + [steps[i]])
    ensures Tidy(AllErrs(rs), path)
  {
    if rs != [] {
      var n := |rs| - 1;
      SiblingErrorsAreTidy(rs[..n], path, steps[..n]);
      forall p | p in AllErrs(rs) ensures path <= p && AllErrs(rs)[p] == 1 {
        if p in rs[n].errs {
          assert path + [steps[n]] <= p;
          if p in AllErrs(rs[..n]) {
            var i := ErrsHaveASource(rs[..n], p);
            NextStep(path, steps[i], steps[n], p);
            assert false;
          }
        }
      }
    }
  }

  /** Facts about the type table. */
  lemma TypesAreWellFormed(rules: Rules, obj: ObjectType, name: FieldName)
    ensures var t := TypeOf(rules, obj, name);
      && WellFormed(t)
      && Base(t) == Base(TypeOf(STANDARD, obj, name)) != Object(QueryObject)
      && (name.Typename? ==> t == NonNull(Scalar))
      && (obj.QueryObject? && name.SchemaRoot? ==>
          t == if rules.schemaIsNullable then Object(SchemaObject) else NonNull(Object(SchemaObject)))
      && (!(obj.QueryObject? && name.SchemaRoot?) ==> t == TypeOf(STANDARD, obj, name))
  {
  }

  lemma FailureIsSound(rules: Rules, t: TypeRef, sels: seq<Field>, path: Path)
    ensures Sound(rules, t, sels, path, Failed(t, path))
  {
  }

  lemma FieldIsSound(w: World, rules: Rules, obj: ObjectType, f: Field, path: Path)
    requires DeclaredType(obj, f.name).Some?
    requires ValidatedUnder(Base(TypeOf(STANDARD, obj, f.name)), f.sels)
    ensures Sound(rules, TypeOf(rules, obj, f.name), f.sels, path, ExecuteField(w, rules, obj, f, path))
    decreases f, 0, 0
  {
    hide DeclaredType, TypeOf, Fits, CompleteValue;
    var t := TypeOf(rules, obj, f.name);
    TypesAreWellFormed(rules, obj, f.name);
    FailureIsSound(rules, t, f.sels, path);
    assert f.name.Typename? ==> Conforms(rules, t, Text(TypeText(obj)), f.sels);
    if !f.name.Typename? && w(path).Returns? {
      var v := w(path).value;
      if v.UntypedNil? || Fits(t, v, true) {
        ValueIsSound(w, rules, t, v, f.sels, path);
      }
    }
  }

  lemma SelectionIsSound(w: World, rules: Rules, obj: ObjectType, sels: seq<Field>, path: Path)
    requires Validated(obj, sels)
    ensures var c := ExecuteSelectionSet(w, rules, obj, sels, path);
      && Tidy(c.errs, path)
      && (c.result.Raised? ==> c.errs != multiset{})
      && (c.result.Value? ==> ObjectConforms(rules, obj, c.result.tree, sels))
    decreases sels, 0, 0
  {
    hide ExecuteField, AllErrs, TypeOf, DeclaredType, Tidy, FieldResults, Conforms, ValidatedUnder, Base;
    var rs := FieldResults(w, rules, obj, sels, path, |sels|);
    var steps := seq(|sels|, i requires 0 <= i < |sels| => Key(sels[i].key));
    forall i | 0 <= i < |sels|
      ensures Sound(rules, TypeOf(rules, obj, sels[i].name), sels[i].sels, path + [steps[i]], rs[i])
    {
      FieldIsSound(w, rules, obj, sels[i], path + [steps[i]]);
    }
    SiblingErrorsAreTidy(rs, path, steps);
    if i :| 0 <= i < |rs| && rs[i].result.Raised? {
      ErrsIncluded(rs, i);
    }
  }

  lemma ValueIsSound(w: World, rules: Rules, t: TypeRef, v: GoValue, sels: seq<Field>, path: Path)
    requires WellFormed(t) && ValidatedUnder(Base(t), sels)
    ensures Sound(rules, t, sels, path, CompleteValue(w, rules, t, v, sels, path))
    decreases sels, Height(t), 1
  {
    if t.NonNull? {
      var v' := if rules.nilSliceIsEmpty && t.inner.ListOf? && v.NilSlice? then Slice([]) else v;
      InnerIsSound(w, rules, t.inner, v', sels, path);
    } else {
      InnerIsSound(w, rules, t, v, sels, path);
    }
  }

  lemma InnerIsSound(w: World, rules: Rules, t: TypeRef, v: GoValue, sels: seq<Field>, path: Path)
    requires !t.NonNull?
    requires WellFormed(t) && ValidatedUnder(Base(t), sels)
    ensures var c := CompleteInner(w, rules, t, v, sels, path);
      && Tidy(c.errs, path)
      && (c.result.Raised? ==> c.errs != multiset{})
      && (c.result.Value? ==> Conforms(rules, t, c.result.tree, sels))
      && (c.result == Value(Null) ==> c.errs == multiset{})
    decreases sels, Height(t), 0
  {
    hide CompleteValue, AllErrs, ItemResults, Validated, ExecuteSelectionSet;
    if !IsNull(v) {
      if t.Object? && v.Struct? {
        SelectionIsSound(w, rules, t.kind, sels, path);
      } else if t.ListOf? && v.Slice? {
        var rs := ItemResults(w, rules, t.item, v.items, sels, path, |v.items|);
        var steps := seq(|rs|, i requires 0 <= i < |rs| => Index(i));
        forall i | 0 <= i < |rs| ensures Sound(rules, t.item, sels, path + [steps[i]], rs[i]) {
          ValueIsSound(w, rules, t.item, v.items[i], sels, path + [steps[i]]);
        }
        SiblingErrorsAreTidy(rs, path, steps);
        if i :| 0 <= i < |rs| && rs[i].result.Raised? {
          ErrsIncluded(rs, i);
        }
      }
    }
  }

  /** A whole response: well-typed data, or null data with an error; one error a position at most. */
  lemma ResponseIsSound(w: World, rules: Rules, root: ObjectType, sels: seq<Field>)
    requires Validated(root, sels)
    ensures var c := Execute(w, rules, root, sels);
      && c.result.Value?
      && (c.result.tree.Null? || ObjectConforms(rules, root, c.result.tree, sels))
      && (c.result.tree.Null? ==> c.errs != multiset{})
      && forall p :: c.errs[p] <= 1
  {
    SelectionIsSound(w, rules, root, sels, []);
    forall p ensures Execute(w, rules, root, sels).errs[p] <= 1 {
      if p in Execute(w, rules, root, sels).errs {}
    }
  }
}

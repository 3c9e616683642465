/**
 * Where gqlgen's reading of null completion parts from the specification's:
 * a nil slice in a non-null list position becomes an empty list without an
 * error, and `__schema` is nullable. The responses agree exactly otherwise.
 */
module GraphqlStandard {
  import opened Core
  import opened GraphqlSpec
  import opened GraphqlTheory
  import opened GraphqlCollapse

  // ---------- No resolver that is reached returns a null gqlgen overlooks ----------

  predicate CleanSelection(w: World, obj: ObjectType, sels: seq<Field>, path: Path)
    decreases sels, 0, 0
  {
    forall i :: 0 <= i < |sels| ==> CleanField(w, obj, sels[i], path + [Key(sels[i].key)])
  }

  predicate CleanField(w: World, obj: ObjectType, f: Field, path: Path)
    decreases f, 0, 0
  {
    f.name.Typename? || !w(path).Returns? ||
    (var t, v := TypeOf(STANDARD, obj, f.name), w(path).value;
     (v.UntypedNil? || Fits(t, v, true)) ==>
       && !(obj.QueryObject? && f.name.SchemaRoot? && IsNull(v))
       && CleanValue(w, t, v, f.sels, path))
  }

  predicate CleanValue(w: World, t: TypeRef, v: GoValue, sels: seq<Field>, path: Path)
    decreases sels, Height(t)
  {
    match t
    case NonNull(inner) => !(inner.ListOf? && v.NilSlice?) && CleanValue(w, inner, v, sels, path)
    case Object(o) => v.Struct? ==> CleanSelection(w, o, sels, path)
    case ListOf(item) => v.Slice? ==>
      forall i :: 0 <= i < |v.items| ==> CleanValue(w, item, v.items[i], sels, path + [Index(i)])
    case Scalar => true
  }

  /** How gqlgen's completion g of a position relates to the standard's s. */
  ghost predicate Compares(g: Completed, s: Completed, clean: bool) {
    && g.errs <= s.errs
    && (clean ==> g == s)
    && (!clean ==> g.errs != s.errs)
  }

  lemma {:induction false} ErrsCompare(gs: seq<Completed>, ss: seq<Completed>)
    requires |gs| == |ss|
    requires forall i :: 0 <= i < |gs| ==> gs[i].errs <= ss[i].errs
    ensures AllErrs(gs) <= AllErrs(ss)
    ensures (exists i :: 0 <= i < |gs| && gs[i].errs != ss[i].errs) ==> AllErrs(gs) != AllErrs(ss)
    ensures (forall i :: 0 <= i < |gs| ==> gs[i].errs == ss[i].errs) ==> AllErrs(gs) == AllErrs(ss)
  {
    if gs != [] {
      var n := |gs| - 1;
      ErrsCompare(gs[..n], ss[..n]);
      if i :| 0 <= i < |gs| && gs[i].errs != ss[i].errs {
        assert i < n ==> gs[..n][i].errs != ss[..n][i].errs;
        SumsDiffer(AllErrs(gs[..n]), gs[n].errs, AllErrs(ss[..n]), ss[n].errs);
      }
    }
  }

  lemma SumsDiffer(a: multiset<Path>, b: multiset<Path>, a': multiset<Path>, b': multiset<Path>)
    requires a <= a' && b <= b'
    requires a != a' || b != b'
    ensures a + b != a' + b'
  {
    var p :| a[p] != a'[p] || b[p] != b'[p];
    assert (a + b)[p] < (a' + b')[p];
  }

  // ---------- Below the root only nil slices matter ----------

  lemma FieldCompares(w: World, obj: ObjectType, f: Field, path: Path)
    requires !(obj.QueryObject? && f.name.SchemaRoot?)
    ensures Compares(ExecuteField(w, GQLGEN, obj, f, path), ExecuteField(w, STANDARD, obj, f, path),
                     CleanField(w, obj, f, path))
    decreases f, 0, 0
  {
    hide DeclaredType, TypeOf, Fits, CompleteValue, CleanValue;
    var t := TypeOf(STANDARD, obj, f.name);
    TypesAreWellFormed(GQLGEN, obj, f.name);
    TypesAreWellFormed(STANDARD, obj, f.name);
    if !f.name.Typename? && w(path).Returns? {
      ValueCompares(w, t, w(path).value, f.sels, path);
    }
  }

  lemma FieldsCompare(w: World, obj: ObjectType, sels: seq<Field>, path: Path)
    requires !obj.QueryObject?
    ensures Compares(ExecuteSelectionSet(w, GQLGEN, obj, sels, path), ExecuteSelectionSet(w, STANDARD, obj, sels, path),
                     CleanSelection(w, obj, sels, path))
    decreases sels, 0, 0
  {
    hide ExecuteField, FieldResults, AllErrs, CleanField;
    var gs := FieldResults(w, GQLGEN, obj, sels, path, |sels|);
    var ss := FieldResults(w, STANDARD, obj, sels, path, |sels|);
    forall i | 0 <= i < |sels| ensures Compares(gs[i], ss[i], CleanField(w, obj, sels[i], path + [Key(sels[i].key)])) {
      FieldCompares(w, obj, sels[i], path + [Key(sels[i].key)]);
    }
    ErrsCompare(gs, ss);
    assert CleanSelection(w, obj, sels, path) ==> gs == ss;
  }

  lemma OnlyNullCompletesToNull(w: World, rules: Rules, t: TypeRef, v: GoValue, sels: seq<Field>, path: Path)
    ensures var c := CompleteInner(w, rules, t, v, sels, path);
      (c.result == Value(Null) <==> IsNull(v)) && (IsNull(v) ==> c.errs == multiset{})
  {
  }

  lemma ValueCompares(w: World, t: TypeRef, v: GoValue, sels: seq<Field>, path: Path)
    requires WellFormed(t) && Base(t) != Object(QueryObject)
    ensures Compares(CompleteValue(w, GQLGEN, t, v, sels, path), CompleteValue(w, STANDARD, t, v, sels, path),
                     CleanValue(w, t, v, sels, path))
    decreases sels, Height(t), 1
  {
    hide CompleteInner, CleanSelection;
    if t.NonNull? && t.inner.ListOf? && v.NilSlice? {
      NilSliceCompares(w, t, sels, path);
    } else {
      var inner := if t.NonNull? then t.inner else t;
      InnerCompares(w, inner, v, sels, path);
      OnlyNullCompletesToNull(w, GQLGEN, inner, v, sels, path);
      OnlyNullCompletesToNull(w, STANDARD, inner, v, sels, path);
    }
  }

  lemma NilSliceCompares(w: World, t: TypeRef, sels: seq<Field>, path: Path)
    requires t.NonNull? && t.inner.ListOf?
    ensures CompleteValue(w, GQLGEN, t, NilSlice, sels, path) == Completed(Value(Arr([])), multiset{})
    ensures CompleteValue(w, STANDARD, t, NilSlice, sels, path) == Completed(Raised, multiset{path})
  {
    var c := CompleteInner(w, GQLGEN, t.inner, Slice([]), sels, path);
    assert c.result.tree.items == [];
  }

  lemma InnerCompares(w: World, t: TypeRef, v: GoValue, sels: seq<Field>, path: Path)
    requires !t.NonNull? && WellFormed(t) && Base(t) != Object(QueryObject)
    ensures Compares(CompleteInner(w, GQLGEN, t, v, sels, path), CompleteInner(w, STANDARD, t, v, sels, path),
                     CleanValue(w, t, v, sels, path))
    decreases sels, Height(t), 0
  {
    hide CompleteValue, ItemResults, AllErrs, ExecuteSelectionSet, CleanSelection;
    if t.Object? {
      FieldsCompare(w, t.kind, sels, path);
    } else if t.ListOf? && v.Slice? {
      var gs := ItemResults(w, GQLGEN, t.item, v.items, sels, path, |v.items|);
      var ss := ItemResults(w, STANDARD, t.item, v.items, sels, path, |v.items|);
      forall i | 0 <= i < |v.items|
        ensures Compares(gs[i], ss[i], CleanValue(w, t.item, v.items[i], sels, path + [Index(i)]))
      {
        ValueCompares(w, t.item, v.items[i], sels, path + [Index(i)]);
      }
      ErrsCompare(gs, ss);
      assert CleanValue(w, t, v, sels, path) ==> gs == ss;
    }
  }

  // ---------- At the root `__schema` matters too ----------

  /** The `__schema` field of the root: same errors when clean, but the standard raises where gqlgen shows null. */
  lemma SchemaCompares(w: World, f: Field, path: Path)
    requires f.name.SchemaRoot?
    ensures var g, s, clean :=
        ExecuteField(w, GQLGEN, QueryObject, f, path), ExecuteField(w, STANDARD, QueryObject, f, path),
        CleanField(w, QueryObject, f, path);
      && g.result.Value?
      && g.errs <= s.errs
      && (clean ==> g.errs == s.errs && TreeOf(g) == TreeOf(s) && (s.result.Raised? <==> TreeOf(g) == Null))
      && (!clean ==> g.errs != s.errs)
  {
    hide DeclaredType, TypeOf, CompleteInner, CleanSelection;
    var t := Object(SchemaObject);
    TypesAreWellFormed(GQLGEN, QueryObject, f.name);
    TypesAreWellFormed(STANDARD, QueryObject, f.name);
    if w(path).Returns? {
      var v := w(path).value;
      InnerCompares(w, t, v, f.sels, path);
      OnlyNullCompletesToNull(w, GQLGEN, t, v, f.sels, path);
      OnlyNullCompletesToNull(w, STANDARD, t, v, f.sels, path);
    }
  }

  /** The response shows a null `__schema`. */
  predicate SchemaShownNull(tree: Tree, sels: seq<Field>)
    requires tree.Obj? && |tree.entries| == |sels|
  {
    exists i :: 0 <= i < |sels| && sels[i].name.SchemaRoot? && tree.entries[i].1 == Null
  }

  /** The same condition as it shows in the response. */
  lemma AgreementShows(w: World, root: ObjectType, sels: seq<Field>)
    requires Validated(root, sels)
    ensures var g := Execute(w, GQLGEN, root, sels);
      (g.result.tree.Null? || (g.result.tree.Obj? && |g.result.tree.entries| == |sels|))
      && (g == Execute(w, STANDARD, root, sels)
          <==> CleanSelection(w, root, sels, [])
               && (root.QueryObject? && g.result.tree.Obj? ==> !SchemaShownNull(g.result.tree, sels)))
  {
    hide ExecuteField, FieldResults, AllErrs, CleanField, Validated;
    if !root.QueryObject? {
      FieldsCompare(w, root, sels, []);
    } else {
      var gs := FieldResults(w, GQLGEN, root, sels, [], |sels|);
      var ss := FieldResults(w, STANDARD, root, sels, [], |sels|);
      forall i | 0 <= i < |sels|
        ensures var clean := CleanField(w, root, sels[i], [Key(sels[i].key)]);
          && gs[i].errs <= ss[i].errs
          && (clean ==> gs[i].errs == ss[i].errs && TreeOf(gs[i]) == TreeOf(ss[i]))
          && (!clean ==> gs[i].errs != ss[i].errs)
          && (clean ==> (ss[i].result.Raised? <==>
              gs[i].result.Raised? || (sels[i].name.SchemaRoot? && TreeOf(gs[i]) == Null)))
          && (sels[i].name.SchemaRoot? ==> gs[i].result.Value?)
      {
        assert [] + [Key(sels[i].key)] == [Key(sels[i].key)];
        if sels[i].name.SchemaRoot? {
          SchemaCompares(w, sels[i], [Key(sels[i].key)]);
        } else {
          FieldCompares(w, root, sels[i], [Key(sels[i].key)]);
        }
      }
      ErrsCompare(gs, ss);
      forall i | 0 <= i < |sels| ensures [] + [Key(sels[i].key)] == [Key(sels[i].key)] {}
      if CleanSelection(w, root, sels, []) {
        assert forall i :: 0 <= i < |sels| ==> TreeOf(gs[i]) == TreeOf(ss[i]);
        assert AnyRaised(gs) ==> AnyRaised(ss);
      }
    }
  }

  /** The `__schema` field is lost: it fails, is nil, or collapses. */
  predicate SchemaLost(w: World, f: Field, path: Path) {
    Misses(w, Object(SchemaObject), path)
    || IsNull(w(path).value)
    || Collapses(w, GQLGEN, SchemaObject, f.sels, path)
  }

  lemma SchemaLostIff(w: World, f: Field, path: Path)
    requires f.name.SchemaRoot?
    ensures TreeOf(ExecuteField(w, GQLGEN, QueryObject, f, path)) == Null <==> SchemaLost(w, f, path)
  {
    var t := Object(SchemaObject);
    if !Misses(w, t, path) {
      InnerRaisesIff(w, GQLGEN, t, w(path).value, f.sels, path);
      assert w(path).value.Struct? || IsNull(w(path).value);
    }
  }

  /**
   * gqlgen's response is the specification's if and only if no resolver that is reached returns a null
   * gqlgen overlooks, and no `__schema` of the root is lost unless the root collapses anyway.
   */
  lemma AgreesWithTheStandardIff(w: World, root: ObjectType, sels: seq<Field>)
    requires Validated(root, sels)
    ensures Execute(w, GQLGEN, root, sels) == Execute(w, STANDARD, root, sels)
      <==> CleanSelection(w, root, sels, [])
           && (root.QueryObject? ==>
                 Collapses(w, GQLGEN, root, sels, [])
                 || forall i :: 0 <= i < |sels| && sels[i].name.SchemaRoot? ==>
                     !SchemaLost(w, sels[i], [Key(sels[i].key)]))
  {
    hide Collapses, SchemaLost, CleanSelection, ExecuteField, FieldResults, AllErrs, Validated;
    AgreementShows(w, root, sels);
    CollapsesIff(w, GQLGEN, root, sels, []);
    forall i | 0 <= i < |sels| && root.QueryObject? && sels[i].name.SchemaRoot?
      ensures TreeOf(FieldResults(w, GQLGEN, root, sels, [], |sels|)[i]) == Null
        <==> SchemaLost(w, sels[i], [Key(sels[i].key)])
    {
      assert [] + [Key(sels[i].key)] == [Key(sels[i].key)];
      SchemaLostIff(w, sels[i], [Key(sels[i].key)]);
    }
  }
}

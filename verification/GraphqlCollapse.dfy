/**
 * When a selection set collapses to null, said of the resolvers alone: a field of non-null type fails,
 * returns null, or has something under it that collapses.
 */
module GraphqlCollapse {
  import opened Core
  import opened GraphqlSpec

  /** Some field of non-null type raises. */
  predicate Collapses(w: World, rules: Rules, obj: ObjectType, sels: seq<Field>, path: Path)
    decreases sels, 0, 0
  {
    exists i :: 0 <= i < |sels| && FieldRaises(w, rules, obj, sels[i], path + [Key(sels[i].key)])
  }

  predicate FieldRaises(w: World, rules: Rules, obj: ObjectType, f: Field, path: Path)
    decreases f, 0, 0
  {
    var t := TypeOf(rules, obj, f.name);
    !f.name.Typename? && t.NonNull? &&
    (Misses(w, t, path) || ValueRaises(w, rules, t, w(path).value, f.sels, path))
  }

  /** The resolver does not come back with a value of the field's type. */
  predicate Misses(w: World, t: TypeRef, path: Path) {
    !w(path).Returns? || !(w(path).value.UntypedNil? || Fits(t, w(path).value, true))
  }

  /** A value of non-null type is null, or what is under it collapses. */
  predicate ValueRaises(w: World, rules: Rules, t: TypeRef, v: GoValue, sels: seq<Field>, path: Path)
    requires t.NonNull?
    decreases sels, Height(t), 1
  {
    var v' := if rules.nilSliceIsEmpty && t.inner.ListOf? && v.NilSlice? then Slice([]) else v;
    IsNull(v') || InnerRaises(w, rules, t.inner, v', sels, path)
  }

  predicate InnerRaises(w: World, rules: Rules, t: TypeRef, v: GoValue, sels: seq<Field>, path: Path)
    decreases sels, Height(t), 0
  {
    !IsNull(v) &&
    if t.Scalar? && v.Leaf? then false
    else if t.Object? && v.Struct? then Collapses(w, rules, t.kind, sels, path)
    else if t.ListOf? && v.Slice? then
      t.item.NonNull?
      && exists i :: 0 <= i < |v.items| && ValueRaises(w, rules, t.item, v.items[i], sels, path + [Index(i)])
    else true
  }

  lemma FieldRaisesIff(w: World, rules: Rules, obj: ObjectType, f: Field, path: Path)
    ensures ExecuteField(w, rules, obj, f, path).result.Raised? <==> FieldRaises(w, rules, obj, f, path)
    decreases f, 0, 0
  {
    hide DeclaredType, TypeOf, CompleteValue, ValueRaises;
    var t := TypeOf(rules, obj, f.name);
    if t.NonNull? && !Misses(w, t, path) {
      ValueRaisesIff(w, rules, t, w(path).value, f.sels, path);
    } else if !Misses(w, t, path) {
      NullableAbsorbs(w, rules, t, w(path).value, f.sels, path);
    }
  }

  lemma NullableAbsorbs(w: World, rules: Rules, t: TypeRef, v: GoValue, sels: seq<Field>, path: Path)
    requires !t.NonNull?
    ensures CompleteValue(w, rules, t, v, sels, path).result.Value?
  {
  }

  /** A selection set is raised exactly when it collapses. */
  lemma CollapsesIff(w: World, rules: Rules, obj: ObjectType, sels: seq<Field>, path: Path)
    ensures ExecuteSelectionSet(w, rules, obj, sels, path).result.Raised? <==> Collapses(w, rules, obj, sels, path)
    decreases sels, 0, 0
  {
    hide ExecuteField, FieldResults, AllErrs, FieldRaises;
    var rs := FieldResults(w, rules, obj, sels, path, |sels|);
    forall i | 0 <= i < |sels|
      ensures rs[i].result.Raised? <==> FieldRaises(w, rules, obj, sels[i], path + [Key(sels[i].key)])
    {
      FieldRaisesIff(w, rules, obj, sels[i], path + [Key(sels[i].key)]);
    }
  }

  lemma ValueRaisesIff(w: World, rules: Rules, t: TypeRef, v: GoValue, sels: seq<Field>, path: Path)
    requires t.NonNull?
    ensures CompleteValue(w, rules, t, v, sels, path).result.Raised? <==> ValueRaises(w, rules, t, v, sels, path)
    decreases sels, Height(t), 1
  {
    hide CompleteInner, InnerRaises;
    var v' := if rules.nilSliceIsEmpty && t.inner.ListOf? && v.NilSlice? then Slice([]) else v;
    InnerRaisesIff(w, rules, t.inner, v', sels, path);
  }

  lemma InnerRaisesIff(w: World, rules: Rules, t: TypeRef, v: GoValue, sels: seq<Field>, path: Path)
    ensures var c := CompleteInner(w, rules, t, v, sels, path);
      (c.result.Raised? <==> InnerRaises(w, rules, t, v, sels, path))
      && (c.result == Value(Null) <==> IsNull(v))
    decreases sels, Height(t), 0
  {
    hide CompleteValue, ItemResults, AllErrs, ValueRaises, Collapses;
    if t.Object? && v.Struct? {
      CollapsesIff(w, rules, t.kind, sels, path);
    } else if t.ListOf? && v.Slice? {
      var rs := ItemResults(w, rules, t.item, v.items, sels, path, |v.items|);
      forall i | 0 <= i < |v.items|
        ensures rs[i].result.Raised?
          <==> t.item.NonNull? && ValueRaises(w, rules, t.item, v.items[i], sels, path + [Index(i)])
      {
        if t.item.NonNull? {
          ValueRaisesIff(w, rules, t.item, v.items[i], sels, path + [Index(i)]);
        } else {
          NullableAbsorbs(w, rules, t.item, v.items[i], sels, path + [Index(i)]);
        }
      }
    }
  }
}

/**
 * What is in a response, position by position and from the resolvers alone: exactly the faulty positions
 * have an error, and whatever is not null shows what its resolver returned.
 */
module GraphqlFaults {
  import opened Core
  import opened GraphqlSpec
  import opened GraphqlTheory

  // ---------- Faults ----------

  /** Following `rest` down from the selection set ends at a field whose resolver is at fault. */
  predicate FaultIn(w: World, rules: Rules, obj: ObjectType, sels: seq<Field>, path: Path, rest: Path)
    decreases |rest|, 0
  {
    rest != [] && rest[0].Key?
    && exists i :: 0 <= i < |sels| && sels[i].key == rest[0].key
                   && FaultAt(w, rules, obj, sels[i], path + [rest[0]], rest[1..])
  }

  /** The field itself is at fault (`rest` is empty), or one below it. */
  predicate FaultAt(w: World, rules: Rules, obj: ObjectType, f: Field, path: Path, rest: Path)
    decreases |rest|, 3
  {
    var t := TypeOf(rules, obj, f.name);
    !f.name.Typename? &&
    match w(path)
    case Returns(v) =>
      if t.NonNull? then FaultyNeeded(w, rules, t.inner, v, f.sels, path, rest)
      else FaultyOptional(w, rules, t, v, f.sels, path, rest)
    case _ => rest == []
  }

  /** A value of non-null type: anything but a value is at fault, save a nil slice where that is an empty list. */
  predicate FaultyNeeded(w: World, rules: Rules, t: TypeRef, v: GoValue, sels: seq<Field>, path: Path, rest: Path)
    decreases |rest|, 2
  {
    match v
    case Leaf(_) => !t.Scalar? && rest == []
    case Struct => if t.Object? then FaultIn(w, rules, t.kind, sels, path, rest) else rest == []
    case Slice(items) =>
      if t.ListOf? && AllTyped(t.item, items) then FaultyItem(w, rules, t.item, items, sels, path, rest) else rest == []
    case NilSlice => !(t.ListOf? && rules.nilSliceIsEmpty) && rest == []
    case NilPointer => rest == []
    case UntypedNil => rest == []
  }

  /** A value of nullable type: the nil of its Go type is no fault, nor is an untyped nil. */
  predicate FaultyOptional(w: World, rules: Rules, t: TypeRef, v: GoValue, sels: seq<Field>, path: Path, rest: Path)
    decreases |rest|, 2
  {
    match v
    case Leaf(_) => !t.Scalar? && rest == []
    case Struct => if t.Object? then FaultIn(w, rules, t.kind, sels, path, rest) else rest == []
    case Slice(items) =>
      if t.ListOf? && AllTyped(t.item, items) then FaultyItem(w, rules, t.item, items, sels, path, rest) else rest == []
    case NilSlice => !t.ListOf? && rest == []
    case NilPointer => t.ListOf? && rest == []
    case UntypedNil => false
  }

  /** Below an item of a list. */
  predicate FaultyItem(w: World, rules: Rules, item: TypeRef, items: seq<GoValue>, sels: seq<Field>, path: Path,
                       rest: Path)
    decreases |rest|, 1
  {
    item.NonNull? && item.inner.Object? && rest != [] && rest[0].Index? && rest[0].index < |items|
    && FaultIn(w, rules, item.inner.kind, sels, path + [rest[0]], rest[1..])
  }

  /** The elements of a Go slice are all structs, or all leaves, as the item type asks. */
  predicate AllTyped(item: TypeRef, items: seq<GoValue>) {
    forall i :: 0 <= i < |items| ==>
      (item == NonNull(Scalar) && items[i].Leaf?) || (ObjectItem(item) && items[i].Struct?)
  }

  predicate ObjectItem(item: TypeRef) {
    item.NonNull? && item.inner.Object?
  }

  /** The types fields have: leaves, objects, and lists of needed leaves or objects. */
  predicate Plain(t: TypeRef) {
    t.Scalar? || t.Object? || (t.ListOf? && (t.item == NonNull(Scalar) || ObjectItem(t.item)))
  }

  lemma FieldsArePlain(rules: Rules, obj: ObjectType, name: FieldName)
    ensures var t := TypeOf(rules, obj, name); Plain(if t.NonNull? then t.inner else t)
  {
  }

  // ---------- Exactly the faulty positions have an error ----------

  lemma SelectionFaults(w: World, rules: Rules, obj: ObjectType, sels: seq<Field>, path: Path, p: Path)
    requires Validated(obj, sels)
    ensures p in ExecuteSelectionSet(w, rules, obj, sels, path).errs
      <==> path <= p && FaultIn(w, rules, obj, sels, path, p[|path|..])
    decreases sels, 0, 0
  {
    hide ExecuteField, FieldResults, AllErrs, FaultAt, ValidatedUnder, DeclaredType, TypeOf;
    var rs := FieldResults(w, rules, obj, sels, path, |sels|);
    forall i | 0 <= i < |sels|
      ensures p in rs[i].errs <==>
        path + [Key(sels[i].key)] <= p && FaultAt(w, rules, obj, sels[i], path + [Key(sels[i].key)], p[|path| + 1..])
    {
      FieldFaults(w, rules, obj, sels[i], path + [Key(sels[i].key)], p);
    }
    if p in AllErrs(rs) {
      var i := ErrsHaveASource(rs, p);
      FirstStep(path, Key(sels[i].key), p);
    }
    if path <= p && FaultIn(w, rules, obj, sels, path, p[|path|..]) {
      var rest := p[|path|..];
      var i :| 0 <= i < |sels| && sels[i].key == rest[0].key
               && FaultAt(w, rules, obj, sels[i], path + [rest[0]], rest[1..]);
      FirstStep(path, rest[0], p);
      ErrsIncluded(rs, i);
    }
  }

  /** A position below `path` by one step is below that step. */
  lemma FirstStep(path: Path, s: Step, p: Path)
    requires path <= p
    ensures path + [s] <= p <==> |p| > |path| && p[|path|..][0] == s
    ensures |p| > |path| ==> p[|path|..][1..] == p[|path| + 1..]
  {
    if |p| > |path| && p[|path|..][0] == s {
      assert p == path + [s] + p[|path| + 1..];
    }
  }

  lemma FieldFaults(w: World, rules: Rules, obj: ObjectType, f: Field, path: Path, p: Path)
    requires DeclaredType(obj, f.name).Some?
    requires ValidatedUnder(Base(TypeOf(STANDARD, obj, f.name)), f.sels)
    ensures p in ExecuteField(w, rules, obj, f, path).errs
      <==> path <= p && FaultAt(w, rules, obj, f, path, p[|path|..])
    decreases f, 0, 0
  {
    var t := TypeOf(rules, obj, f.name);
    TypesAreWellFormed(rules, obj, f.name);
    FieldsArePlain(rules, obj, f.name);
    AtPath(path, p);
    if !f.name.Typename? && w(path).Returns? {
      var v := w(path).value;
      FitsIsTyped(t, v);
      hide DeclaredType, TypeOf, Fits, CompleteValue, FaultyNeeded, FaultyOptional, ValidatedUnder;
      ValueFaults(w, rules, t, v, f.sels, path, p);
    }
  }

  lemma AtPath(path: Path, p: Path)
    ensures p == path <==> path <= p && p[|path|..] == []
  {
  }

  /** The Go type of a value, case by case. */
  predicate Typed(t: TypeRef, v: GoValue) {
    if t.NonNull? then
      match v
      case Leaf(_) => t.inner.Scalar?
      case Struct => t.inner.Object?
      case NilPointer => t.inner.Object?
      case NilSlice => t.inner.ListOf?
      case Slice(items) => t.inner.ListOf? && AllTyped(t.inner.item, items)
      case UntypedNil => false
    else
      match v
      case Leaf(_) => t.Scalar?
      case Struct => t.Object?
      case NilPointer => t.Scalar? || t.Object?
      case NilSlice => t.ListOf?
      case Slice(items) => t.ListOf? && AllTyped(t.item, items)
      case UntypedNil => false
  }

  lemma FitsIsTyped(t: TypeRef, v: GoValue)
    requires Plain(if t.NonNull? then t.inner else t)
    ensures Fits(t, v, true) <==> Typed(t, v)
  {
    var inner := if t.NonNull? then t.inner else t;
    if inner.ListOf? && v.Slice? {
      assert forall i :: 0 <= i < |v.items| ==>
        (Fits(inner.item, v.items[i], false)
         <==> if inner.item == NonNull(Scalar) then v.items[i].Leaf? else v.items[i].Struct?);
    }
  }

  /** The errors of a typed value, or of one the type assertion rejects. */
  lemma ValueFaults(w: World, rules: Rules, t: TypeRef, v: GoValue, sels: seq<Field>, path: Path, p: Path)
    requires Plain(if t.NonNull? then t.inner else t) && ValidatedUnder(Base(t), sels)
    ensures var c := if v.UntypedNil? || Typed(t, v) then CompleteValue(w, rules, t, v, sels, path)
                     else Failed(t, path);
      p in c.errs <==>
        path <= p && if t.NonNull? then FaultyNeeded(w, rules, t.inner, v, sels, path, p[|path|..])
                     else FaultyOptional(w, rules, t, v, sels, path, p[|path|..])
    decreases sels, 1, 0
  {
    AtPath(path, p);
    var inner := if t.NonNull? then t.inner else t;
    if v.Struct? && inner.Object? {
      StructFaults(w, rules, t, inner, sels, path, p);
    } else if v.Slice? && inner.ListOf? && AllTyped(inner.item, v.items) {
      ListFaults(w, rules, t, inner, v, sels, path, p);
    } else if v.UntypedNil? || Typed(t, v) {
      PlainFaults(w, rules, t, v, sels, path);
    }
  }

  lemma StructFaults(w: World, rules: Rules, t: TypeRef, inner: TypeRef, sels: seq<Field>, path: Path, p: Path)
    requires inner.Object? && t in {inner, NonNull(inner)} && Validated(inner.kind, sels)
    ensures p in CompleteValue(w, rules, t, Struct, sels, path).errs
      <==> path <= p && FaultIn(w, rules, inner.kind, sels, path, p[|path|..])
    decreases sels, 0, 1
  {
    NeverNull(w, rules, inner.kind, sels, path);
    SelectionFaults(w, rules, inner.kind, sels, path, p);
    var c := CompleteInner(w, rules, inner, Struct, sels, path);
    assert c == ExecuteSelectionSet(w, rules, inner.kind, sels, path);
    hide ExecuteSelectionSet, FaultIn, CompleteInner;
  }

  lemma ListFaults(w: World, rules: Rules, t: TypeRef, inner: TypeRef, v: GoValue, sels: seq<Field>, path: Path,
                   p: Path)
    requires inner.ListOf? && t in {inner, NonNull(inner)} && v.Slice? && Plain(inner)
    requires AllTyped(inner.item, v.items) && ValidatedUnder(Base(inner), sels)
    ensures p in CompleteValue(w, rules, t, v, sels, path).errs
      <==> path <= p && FaultyItem(w, rules, inner.item, v.items, sels, path, p[|path|..])
    decreases sels, 0, 3
  {
    ItemFaults(w, rules, inner.item, v.items, sels, path, p);
    var c := CompleteInner(w, rules, inner, v, sels, path);
    assert c.errs == AllErrs(ItemResults(w, rules, inner.item, v.items, sels, path, |v.items|));
    assert c.result != Value(Null);
    hide ItemResults, AllErrs, FaultyItem, CompleteInner;
  }

  /** A leaf or a nil has no selection to complete. */
  lemma PlainFaults(w: World, rules: Rules, t: TypeRef, v: GoValue, sels: seq<Field>, path: Path)
    requires (v.Leaf? && (if t.NonNull? then t.inner else t).Scalar?) || IsNull(v)
    requires v.UntypedNil? || Typed(t, v)
    ensures CompleteValue(w, rules, t, v, sels, path).errs
      == if t.NonNull? && IsNull(v) && !(v.NilSlice? && rules.nilSliceIsEmpty) then multiset{path} else multiset{}
  {
    if t.NonNull? && v.NilSlice? && rules.nilSliceIsEmpty {
      var c := CompleteInner(w, rules, t.inner, Slice([]), sels, path);
      assert c.errs == AllErrs([]) && c.result != Value(Null);
    } else if t.NonNull? {
      var c := CompleteInner(w, rules, t.inner, v, sels, path);
      assert c == Completed(if v.Leaf? then Value(Text(v.text)) else Value(Null), multiset{});
    } else {
      var c := CompleteInner(w, rules, t, v, sels, path);
      assert c.errs == multiset{};
    }
  }

  lemma NeverNull(w: World, rules: Rules, obj: ObjectType, sels: seq<Field>, path: Path)
    ensures ExecuteSelectionSet(w, rules, obj, sels, path).result != Value(Null)
  {
  }

  lemma ItemFaults(w: World, rules: Rules, item: TypeRef, items: seq<GoValue>, sels: seq<Field>, path: Path, p: Path)
    requires (item == NonNull(Scalar) || ObjectItem(item)) && AllTyped(item, items) && ValidatedUnder(Base(item), sels)
    ensures p in AllErrs(ItemResults(w, rules, item, items, sels, path, |items|))
      <==> path <= p && FaultyItem(w, rules, item, items, sels, path, p[|path|..])
    decreases sels, 0, 2
  {
    hide ItemResults, AllErrs, FaultIn;
    var rs := ItemResults(w, rules, item, items, sels, path, |items|);
    forall i | 0 <= i < |items|
      ensures p in rs[i].errs <==>
        item.inner.Object? && path + [Index(i)] <= p
        && FaultIn(w, rules, item.inner.kind, sels, path + [Index(i)], p[|path| + 1..])
    {
      OneItemFaults(w, rules, item, items[i], sels, path + [Index(i)], p);
    }
    if p in AllErrs(rs) {
      var i := ErrsHaveASource(rs, p);
      FirstStep(path, Index(i), p);
    }
    if path <= p && FaultyItem(w, rules, item, items, sels, path, p[|path|..]) {
      var i := p[|path|..][0].index;
      FirstStep(path, Index(i), p);
      ErrsIncluded(rs, i);
    }
  }

  lemma OneItemFaults(w: World, rules: Rules, item: TypeRef, v: GoValue, sels: seq<Field>, at: Path, p: Path)
    requires (item == NonNull(Scalar) && v.Leaf?) || (ObjectItem(item) && v.Struct?)
    requires ValidatedUnder(Base(item), sels)
    ensures p in CompleteValue(w, rules, item, v, sels, at).errs
      <==> item.inner.Object? && at <= p && FaultIn(w, rules, item.inner.kind, sels, at, p[|at|..])
    decreases sels, 0, 1
  {
    hide FaultIn;
    if v.Struct? {
      NeverNull(w, rules, item.inner.kind, sels, at);
      hide ExecuteSelectionSet;
      SelectionFaults(w, rules, item.inner.kind, sels, at, p);
    }
  }

  /**
   * Every error has a cause and every cause its error: a position is reported exactly when the resolver
   * there fails, panics, is called with bad arguments, returns a value that is not of the field's Go type, or
   * returns a nil that its type does not allow.
   */
  lemma ErrorsAreTheFaults(w: World, rules: Rules, root: ObjectType, sels: seq<Field>, p: Path)
    requires Validated(root, sels)
    ensures p in Execute(w, rules, root, sels).errs <==> FaultIn(w, rules, root, sels, [], p)
  {
    SelectionFaults(w, rules, root, sels, [], p);
    assert p[0..] == p;
  }

  /** No errors, and then no null data, exactly when no resolver that is reached is at fault. */
  lemma ErrorFreeIff(w: World, rules: Rules, root: ObjectType, sels: seq<Field>)
    requires Validated(root, sels)
    ensures var c := Execute(w, rules, root, sels);
      (c.errs == multiset{} <==> forall p :: !FaultIn(w, rules, root, sels, [], p))
      && (c.errs == multiset{} ==> !c.result.tree.Null?)
  {
    ResponseIsSound(w, rules, root, sels);
    hide Execute, FaultIn;
    var errs := Execute(w, rules, root, sels).errs;
    forall p ensures p in errs <==> FaultIn(w, rules, root, sels, [], p) {
      ErrorsAreTheFaults(w, rules, root, sels, p);
    }
    if errs != multiset{} {
      var p :| p in errs;
      assert FaultIn(w, rules, root, sels, [], p);
    }
  }

  /** A nullable field whose resolver returns nil is null without an error. */
  lemma NilIsNull(w: World, rules: Rules, obj: ObjectType, f: Field, path: Path)
    requires !f.name.Typename? && w(path).Returns?
    requires var t, v := TypeOf(rules, obj, f.name), w(path).value;
      ((t.Scalar? || t.Object?) && v.NilPointer?) || (t.ListOf? && v.NilSlice?) || (!t.NonNull? && v.UntypedNil?)
    ensures ExecuteField(w, rules, obj, f, path) == Completed(Value(Null), multiset{})
  {
    var t, v := TypeOf(rules, obj, f.name), w(path).value;
    assert v.UntypedNil? || Fits(t, v, true);
    assert CompleteInner(w, rules, t, v, f.sels, path) == Completed(Value(Null), multiset{});
    hide TypeOf, Fits, CompleteInner;
  }

  // ---------- Whatever is not null shows what its resolver returned ----------

  /** The tree is null, or shows this Go value: leaf for leaf, element for element, key for key. */
  ghost predicate Shows(w: World, base: TypeRef, v: GoValue, sels: seq<Field>, path: Path, tree: Tree)
    decreases tree, 1
  {
    tree.Null? ||
    match v
    case Leaf(text) => tree == Text(text)
    case Struct => base.Object? && ShowsObject(w, base.kind, sels, path, tree)
    case Slice(items) =>
      tree.Arr? && |tree.items| == |items|
      && forall i :: 0 <= i < |items| ==> Shows(w, base, items[i], sels, path + [Index(i)], tree.items[i])
    case NilSlice => tree == Arr([])
    case _ => false
  }

  ghost predicate ShowsObject(w: World, obj: ObjectType, sels: seq<Field>, path: Path, tree: Tree)
    decreases tree, 0
  {
    tree.Obj? && |tree.entries| == |sels|
    && forall i :: 0 <= i < |sels| ==>
      tree.entries[i].0 == sels[i].key
      && ShowsField(w, obj, sels[i], path + [Key(sels[i].key)], tree.entries[i].1)
  }

  /** `__typename` is the object's own name and never null; any other field shows what was returned at its path. */
  ghost predicate ShowsField(w: World, obj: ObjectType, f: Field, path: Path, tree: Tree)
    decreases tree, 2
  {
    if f.name.Typename? then tree == Text(TypeText(obj))
    else tree.Null?
         || (w(path).Returns? && Shows(w, Base(TypeOf(STANDARD, obj, f.name)), w(path).value, f.sels, path, tree))
  }

  lemma SelectionShows(w: World, rules: Rules, obj: ObjectType, sels: seq<Field>, path: Path)
    ensures var c := ExecuteSelectionSet(w, rules, obj, sels, path);
      c.result.Value? ==> ShowsObject(w, obj, sels, path, c.result.tree)
    decreases sels, 0, 0
  {
    hide ExecuteField, FieldResults, AllErrs, ShowsField;
    forall i | 0 <= i < |sels|
      ensures ShowsField(w, obj, sels[i], path + [Key(sels[i].key)],
                         TreeOf(ExecuteField(w, rules, obj, sels[i], path + [Key(sels[i].key)])))
    {
      FieldShows(w, rules, obj, sels[i], path + [Key(sels[i].key)]);
    }
  }

  lemma FieldShows(w: World, rules: Rules, obj: ObjectType, f: Field, path: Path)
    ensures ShowsField(w, obj, f, path, TreeOf(ExecuteField(w, rules, obj, f, path)))
    decreases f, 0, 0
  {
    var t := TypeOf(rules, obj, f.name);
    assert Base(t) == Base(TypeOf(STANDARD, obj, f.name));
    if !f.name.Typename? && w(path).Returns? {
      hide TypeOf, Shows, CompleteValue, Fits;
      ValueShows(w, rules, t, w(path).value, f.sels, path);
    }
  }

  lemma ValueShows(w: World, rules: Rules, t: TypeRef, v: GoValue, sels: seq<Field>, path: Path)
    ensures Shows(w, Base(t), v, sels, path, TreeOf(CompleteValue(w, rules, t, v, sels, path)))
    decreases sels, Height(t), 1
  {
    if t.NonNull? {
      var v' := if rules.nilSliceIsEmpty && t.inner.ListOf? && v.NilSlice? then Slice([]) else v;
      InnerShows(w, rules, t.inner, v', sels, path);
      hide CompleteInner;
    } else {
      InnerShows(w, rules, t, v, sels, path);
      hide CompleteInner, Shows;
    }
  }

  lemma InnerShows(w: World, rules: Rules, t: TypeRef, v: GoValue, sels: seq<Field>, path: Path)
    ensures Shows(w, Base(t), v, sels, path, TreeOf(CompleteInner(w, rules, t, v, sels, path)))
    decreases sels, Height(t), 0
  {
    if t.Object? && v.Struct? {
      SelectionShows(w, rules, t.kind, sels, path);
      hide ExecuteSelectionSet, ShowsObject;
    } else if t.ListOf? && v.Slice? {
      forall i | 0 <= i < |v.items|
        ensures Shows(w, Base(t), v.items[i], sels, path + [Index(i)],
                      TreeOf(CompleteValue(w, rules, t.item, v.items[i], sels, path + [Index(i)])))
      {
        ValueShows(w, rules, t.item, v.items[i], sels, path + [Index(i)]);
      }
      hide CompleteValue, AllErrs;
    }
  }

  /** Data that is not null carries, under each key, what the resolver at that position returned, or null. */
  lemma DataShowsTheResolvers(w: World, rules: Rules, root: ObjectType, sels: seq<Field>)
    ensures var tree := Execute(w, rules, root, sels).result.tree;
      tree.Null? || ShowsObject(w, root, sels, [], tree)
  {
    SelectionShows(w, rules, root, sels, []);
  }

  /** `__typename` tells the nine object types apart, introspection's by their two underscores. */
  lemma TypenameTells(w: World, rules: Rules, obj: ObjectType, f: Field, path: Path)
    requires f.name.Typename?
    ensures var c := ExecuteField(w, rules, obj, f, path);
      && c.errs == multiset{} && c.result.Value? && c.result.tree.Text?
      && var name := c.result.tree.text;
         && (name == "Query" <==> obj.QueryObject?)
         && (name == "Mutation" <==> obj.MutationObject?)
         && (name == "User" <==> obj.UserObject?)
         && (name == "__Schema" <==> obj.SchemaObject?)
         && (name == "__Type" <==> obj.TypeObject?)
         && (name == "__Field" <==> obj.FieldObject?)
         && (name == "__InputValue" <==> obj.InputValueObject?)
         && (name == "__EnumValue" <==> obj.EnumValueObject?)
         && (name == "__Directive" <==> obj.DirectiveObject?)
  {
    assert TypeText(obj)[0] == '_' || |TypeText(obj)| in {4, 5, 8};
  }
}

/**
 * The generated executor: field functions that recover, object functions that
 * fill a value array and count invalid fields, list functions that fill an
 * array from goroutines and scan it for nulls. A panic is an exit of its own:
 * it starts in a resolver, a failed type assertion or an unknown field, and
 * ends at the nearest deferred recover. For every selection it is said exactly
 * when one escapes; for validated selections each function is proved equal to
 * the reference. Concurrent fields and elements run whole, in any order; their
 * finer interleavings are the subject of GraphqlSchedule.
 */
module GraphqlExec {
  import opened Core
  import opened GraphqlSpec
  import opened GraphqlTheory

  /** The generated marshal functions; elements of a list are passed by value. */
  datatype Marshal =
    | NLeaf
    | OLeafPtr
    | NStruct(kind: ObjectType)
    | NPtr(kind: ObjectType)
    | OPtr(kind: ObjectType)
    | NList(item: Marshal)
    | OList(item: Marshal)

  /**
   * What the generated code does with one field: whether a nil result is an
   * error, whether a null is counted invalid by the object function, which
   * marshal function runs, and whether the field is dispatched concurrently.
   */
  datatype Code = Code(nilIsError: bool, counts: bool, marshal: Marshal, concurrent: bool)

  const NEEDED := Code(true, true, NLeaf, false)
  const OPTIONAL := Code(false, false, OLeafPtr, false)

  function CodeOf(obj: ObjectType, name: FieldName): Option<Code> {
    match obj
    case MutationObject =>
      (match name
       case CreateUser => Some(Code(true, true, NPtr(UserObject), false))
       case UpdateUser => Some(Code(true, true, NPtr(UserObject), false))
       case DeleteUser => Some(NEEDED)
       case _ => None)
    case QueryObject =>
      (match name
       case Users => Some(Code(true, true, NList(NStruct(UserObject)), true))
       case UserById => Some(Code(false, false, OPtr(UserObject), true))
       case TypeByName => Some(Code(false, false, OPtr(TypeObject), false))
       case SchemaRoot => Some(Code(false, false, OPtr(SchemaObject), false))
       case _ => None)
    case UserObject =>
      (match name
       case Id => Some(NEEDED)
       case Name => Some(NEEDED)
       case Email => Some(NEEDED)
       case CreatedAt => Some(NEEDED)
       case UpdatedAt => Some(NEEDED)
       case DeletedAt => Some(OPTIONAL)
       case _ => None)
    case DirectiveObject =>
      (match name
       case Name => Some(NEEDED)
       case Description => Some(OPTIONAL)
       case Locations => Some(Code(true, true, NList(NLeaf), false))
       case Args => Some(Code(true, true, NList(NStruct(InputValueObject)), false))
       case IsRepeatable => Some(NEEDED)
       case _ => None)
    case EnumValueObject =>
      (match name
       case Name => Some(NEEDED)
       case Description => Some(OPTIONAL)
       case IsDeprecated => Some(NEEDED)
       case DeprecationReason => Some(OPTIONAL)
       case _ => None)
    case FieldObject =>
      (match name
       case Name => Some(NEEDED)
       case Description => Some(OPTIONAL)
       case Args => Some(Code(true, true, NList(NStruct(InputValueObject)), false))
       case OfFieldType => Some(Code(true, true, NPtr(TypeObject), false))
       case IsDeprecated => Some(NEEDED)
       case DeprecationReason => Some(OPTIONAL)
       case _ => None)
    case InputValueObject =>
      (match name
       case Name => Some(NEEDED)
       case Description => Some(OPTIONAL)
       case OfFieldType => Some(Code(true, true, NPtr(TypeObject), false))
       case DefaultValue => Some(OPTIONAL)
       case _ => None)
    case SchemaObject =>
      (match name
       case Description => Some(OPTIONAL)
       case Types => Some(Code(true, true, NList(NStruct(TypeObject)), false))
       case QueryType => Some(Code(true, true, NPtr(TypeObject), false))
       case MutationType => Some(Code(false, false, OPtr(TypeObject), false))
       case SubscriptionType => Some(Code(false, false, OPtr(TypeObject), false))
       case Directives => Some(Code(true, true, NList(NStruct(DirectiveObject)), false))
       case _ => None)
    case TypeObject =>
      (match name
       case Kind => Some(NEEDED)
       case Name => Some(OPTIONAL)
       case Description => Some(OPTIONAL)
       case Fields => Some(Code(false, false, OList(NStruct(FieldObject)), false))
       case Interfaces => Some(Code(false, false, OList(NStruct(TypeObject)), false))
       case PossibleTypes => Some(Code(false, false, OList(NStruct(TypeObject)), false))
       case EnumValues => Some(Code(false, false, OList(NStruct(EnumValueObject)), false))
       case InputFields => Some(Code(false, false, OList(NStruct(InputValueObject)), false))
       case OfType => Some(Code(false, false, OPtr(TypeObject), false))
       case SpecifiedByUrl => Some(OPTIONAL)
       case _ => None)
  }

  /** The schema type a marshal function stands for. */
  function TypeFor(m: Marshal): TypeRef {
    match m
    case NLeaf => NonNull(Scalar)
    case OLeafPtr => Scalar
    case NStruct(o) => NonNull(Object(o))
    case NPtr(o) => NonNull(Object(o))
    case OPtr(o) => Object(o)
    case NList(item) => NonNull(ListOf(TypeFor(item)))
    case OList(item) => ListOf(TypeFor(item))
  }

  /** The value passes the field function's type assertion for this marshal function. */
  predicate Asserts(m: Marshal, v: GoValue) {
    match m
    case NLeaf => v.Leaf?
    case OLeafPtr => v.NilPointer? || v.Leaf?
    case NStruct(_) => v.Struct?
    case NPtr(_) => v.NilPointer? || v.Struct?
    case OPtr(_) => v.NilPointer? || v.Struct?
    case NList(item) => v.NilSlice? || (v.Slice? && forall i :: 0 <= i < |v.items| ==> Asserts(item, v.items[i]))
    case OList(item) => v.NilSlice? || (v.Slice? && forall i :: 0 <= i < |v.items| ==> Asserts(item, v.items[i]))
  }

  /** List elements are structs or leaves. */
  predicate ByValue(m: Marshal) {
    m.NLeaf? || m.NStruct?
  }

  predicate Generated(m: Marshal) {
    m.NList? || m.OList? ==> ByValue(m.item)
  }

  /** The generated table follows the schema: same fields, a counted null exactly at a non-null type. */
  lemma CodeFollowsSchema(obj: ObjectType, name: FieldName)
    ensures CodeOf(obj, name).Some? <==> !name.Typename? && DeclaredType(obj, name).Some?
    ensures CodeOf(obj, name).Some? ==>
      var c, t := CodeOf(obj, name).value, TypeOf(GQLGEN, obj, name);
      TypeFor(c.marshal) == t && Generated(c.marshal) && !c.marshal.NStruct?
      && (c.counts <==> t.NonNull?) && (c.nilIsError <==> t.NonNull?)
  {
  }

  lemma {:induction false} AssertsIsFits(m: Marshal, v: GoValue)
    requires Generated(m) && !m.NStruct?
    ensures Asserts(m, v) <==> Fits(TypeFor(m), v, true)
  {
    if (m.NList? || m.OList?) && v.Slice? {
      assert forall i :: 0 <= i < |v.items| ==>
        (Asserts(m.item, v.items[i]) <==> Fits(TypeFor(m.item), v.items[i], false));
    }
  }

  // ---------- Errors of the positions finished so far ----------

  ghost function ErrsOf(rs: seq<Completed>, done: set<nat>): multiset<Path> {
    if rs == [] then multiset{}
    else
      var n := |rs| - 1;
      ErrsOf(rs[..n], done) + if n in done then rs[n].errs else multiset{}
  }

  lemma {:induction false} ErrsOfNone(rs: seq<Completed>)
    ensures ErrsOf(rs, {}) == multiset{}
  {
    if rs != [] {
      ErrsOfNone(rs[..|rs| - 1]);
    }
  }

  lemma {:induction false} ErrsOfAll(rs: seq<Completed>, done: set<nat>)
    requires forall i: nat :: i < |rs| ==> i in done
    ensures ErrsOf(rs, done) == AllErrs(rs)
  {
    if rs != [] {
      ErrsOfAll(rs[..|rs| - 1], done);
    }
  }

  lemma {:induction false} ErrsOfOneMore(rs: seq<Completed>, done: set<nat>, i: nat)
    requires i !in done
    ensures ErrsOf(rs, done + {i}) == ErrsOf(rs, done) + if i < |rs| then rs[i].errs else multiset{}
  {
    if rs != [] {
      ErrsOfOneMore(rs[..|rs| - 1], done, i);
    }
  }

  lemma {:induction false} ErrsOfSource(rs: seq<Completed>, done: set<nat>, p: Path) returns (i: nat)
    requires p in ErrsOf(rs, done)
    ensures i < |rs| && i in done && p in rs[i].errs
  {
    var n := |rs| - 1;
    if n in done && p in rs[n].errs {
      i := n;
    } else {
      i := ErrsOfSource(rs[..n], done, p);
    }
  }

  /** No error has been reported at or below the position yet. */
  ghost predicate Untouched(errs: multiset<Path>, path: Path) {
    forall p :: p in errs ==> !(path <= p)
  }

  /** Siblings never report at each other's positions. */
  lemma SiblingUntouched(base: multiset<Path>, rs: seq<Completed>, done: set<nat>, path: Path, steps: seq<Step>, i: nat)
    requires |rs| == |steps| && i < |steps| && i !in done
    requires forall j, k :: 0 <= j < k < |steps| ==> steps[j] != steps[k]
    requires forall j :: 0 <= j < |rs| ==> Tidy(rs[j].errs, path + [steps[j]])
    requires Untouched(base, path)
    ensures Untouched(base + ErrsOf(rs, done), path + [steps[i]])
  {
    forall p | p in base + ErrsOf(rs, done) ensures !(path + [steps[i]] <= p) {
      if path + [steps[i]] <= p {
        assert path <= p;
        var j := ErrsOfSource(rs, done, p);
        NextStep(path, steps[i], steps[j], p);
        assert false;
      }
    }
  }

  /** The finished slots hold their results, and `invalids` counts the raised ones. */
  ghost predicate Filled(rs: seq<Completed>, done: set<nat>, values: seq<Tree>) {
    |values| == |rs| && forall i: nat :: i < |rs| && i in done ==> values[i] == TreeOf(rs[i])
  }

  ghost predicate Counted(rs: seq<Completed>, done: set<nat>, invalids: nat) {
    invalids > 0 <==> exists i: nat :: i < |rs| && i in done && rs[i].result.Raised?
  }

  /** The positions of a selection set's fields, all sound. */
  lemma FieldsAreSound(w: World, obj: ObjectType, sels: seq<Field>, path: Path, rs: seq<Completed>, steps: seq<Step>)
    requires Validated(obj, sels)
    requires rs == FieldResults(w, GQLGEN, obj, sels, path, |sels|)
    requires steps == seq(|sels|, i requires 0 <= i < |sels| => Key(sels[i].key))
    ensures forall i :: 0 <= i < |sels| ==>
      Sound(GQLGEN, TypeOf(GQLGEN, obj, sels[i].name), sels[i].sels, path + [steps[i]], rs[i])
  {
    hide ExecuteField, TypeOf, DeclaredType, Sound, ValidatedUnder, Base, FieldResults;
    forall i | 0 <= i < |sels|
      ensures Sound(GQLGEN, TypeOf(GQLGEN, obj, sels[i].name), sels[i].sels, path + [steps[i]], rs[i])
    {
      FieldIsSound(w, GQLGEN, obj, sels[i], path + [steps[i]]);
    }
  }

  // ---------- Panics ----------

  /** How a call ends: with a value, or with a panic nobody in it has recovered. */
  datatype Exit = Returned(tree: Tree) | Escapes

  /** The object function's switch has no case for the field, so its default case panics. */
  predicate Unknown(obj: ObjectType, name: FieldName) {
    !name.Typename? && CodeOf(obj, name).None?
  }

  predicate NamesUnknown(obj: ObjectType, sels: seq<Field>) {
    exists i :: 0 <= i < |sels| && Unknown(obj, sels[i].name)
  }

  /** Marshalling the value runs an object function on a selection with an unknown field. */
  predicate ValueEscapes(m: Marshal, v: GoValue, sels: seq<Field>) {
    (m.NStruct? || ((m.NPtr? || m.OPtr?) && v.Struct?)) && NamesUnknown(m.kind, sels)
  }

  /** The field function's body panics; the function itself recovers. */
  predicate BodyEscapes(w: World, obj: ObjectType, f: Field, path: Path)
    requires CodeOf(obj, f.name).Some?
  {
    var m := CodeOf(obj, f.name).value.marshal;
    match w(path)
    case Panics => true
    case Returns(v) => !v.UntypedNil? && (!Asserts(m, v) || ValueEscapes(m, v, f.sels))
    case _ => false
  }

  lemma ValidatedNamesAreKnown(obj: ObjectType, sels: seq<Field>)
    requires Validated(obj, sels)
    ensures !NamesUnknown(obj, sels)
  {
    hide DeclaredType, CodeOf;
    forall i | 0 <= i < |sels| ensures !Unknown(obj, sels[i].name) {
      CodeFollowsSchema(obj, sels[i].name);
    }
  }

  /** No panic escapes from marshalling a value of a validated selection. */
  lemma ValidatedNeverEscapes(m: Marshal, v: GoValue, sels: seq<Field>)
    requires ValidatedUnder(Base(TypeFor(m)), sels)
    ensures !ValueEscapes(m, v, sels)
  {
    if m.NStruct? || m.NPtr? || m.OPtr? {
      ValidatedNamesAreKnown(m.kind, sels);
    }
  }

  /** The field's sub-selection is validated and nothing has been reported at or below it. */
  ghost predicate FieldReady(obj: ObjectType, f: Field, errs: multiset<Path>, path: Path) {
    ValidatedUnder(Base(TypeOf(STANDARD, obj, f.name)), f.sels) && Untouched(errs, path)
  }

  class ExecutionContext {
    /** Every error reported so far, by position; goroutines append in any order. */
    var errors: multiset<Path>

    constructor ()
      ensures errors == multiset{}
    {
      errors := multiset{};
    }

    method Error(path: Path)
      modifies this
      ensures errors == old(errors) + multiset{path}
    {
      errors := errors + multiset{path};
    }

    /** graphql.HasFieldError */
    predicate HasFieldError(path: Path)
      reads this
    {
      path in errors
    }

    /** A generated field function such as _Query_users: its deferred function recovers every panic of its body. */
    method ResolveField(w: World, obj: ObjectType, f: Field, path: Path) returns (ret: Tree)
      requires CodeOf(obj, f.name).Some?
      modifies this
      ensures FieldReady(obj, f, old(errors), path) ==>
        errors == old(errors) + ExecuteField(w, GQLGEN, obj, f, path).errs
        && ret == TreeOf(ExecuteField(w, GQLGEN, obj, f, path))
      decreases f, 1, 0
    {
      hide *;
      var exit := FieldBody(w, obj, f, path);
      match exit
      case Returned(tree) =>
        ret := tree;
      case Escapes =>
        Error(path);
        ret := Null;
    }

    /** The body of a field function, up to the deferred recover. */
    method FieldBody(w: World, obj: ObjectType, f: Field, path: Path) returns (exit: Exit)
      requires CodeOf(obj, f.name).Some?
      modifies this
      ensures exit.Escapes? <==> BodyEscapes(w, obj, f, path)
      ensures FieldReady(obj, f, old(errors), path) ==>
        var c := ExecuteField(w, GQLGEN, obj, f, path);
        if exit.Escapes? then errors == old(errors) && TreeOf(c) == Null && c.errs == multiset{path}
        else errors == old(errors) + c.errs && exit.tree == TreeOf(c)
      decreases f, 0, 0
    {
      CodeFollowsSchema(obj, f.name);
      TypesAreWellFormed(GQLGEN, obj, f.name);
      hide DeclaredType, TypeOf, CodeOf, CompleteValue, ValidatedUnder, Validated, Fits, ValueEscapes;
      var code := CodeOf(obj, f.name).value;
      match w(path)
      case BadArguments =>
        // the field context reports the argument error
        Error(path);
        exit := Returned(Null);
      case Panics =>
        exit := Escapes;
      case Fails =>
        Error(path);
        exit := Returned(Null);
      case Returns(v) =>
        if v.UntypedNil? {
          if code.nilIsError && !HasFieldError(path) {
            Error(path);
          }
          exit := Returned(Null);
          NilCompletes(w, TypeOf(GQLGEN, obj, f.name), f.sels, path);
        } else {
          AssertsIsFits(code.marshal, v);
          if !Asserts(code.marshal, v) {
            // the type assertion panics
            exit := Escapes;
          } else {
            exit := MarshalValue(w, code.marshal, f.sels, v, path);
          }
        }
    }

    /** The marshalN…/marshalO… functions. */
    method MarshalValue(w: World, m: Marshal, sels: seq<Field>, v: GoValue, path: Path) returns (exit: Exit)
      requires Generated(m) && Asserts(m, v)
      modifies this
      ensures exit.Escapes? <==> ValueEscapes(m, v, sels)
      ensures ValidatedUnder(Base(TypeFor(m)), sels) && Untouched(old(errors), path) ==>
        errors == old(errors) + CompleteValue(w, GQLGEN, TypeFor(m), v, sels, path).errs
        && exit == Returned(TreeOf(CompleteValue(w, GQLGEN, TypeFor(m), v, sels, path)))
      decreases sels, Height(TypeFor(m)), 1
    {
      hide ExecuteSelectionSet, CompleteValue, CompleteInner, TypeFor, Height, Validated, TreeOf, Base, Asserts, ErrsOf;
      hide NamesUnknown;
      match m
      case NLeaf =>
        LeafFacts(w, m, sels, v, path);
        exit := Returned(Text(v.text));
      case OLeafPtr =>
        LeafFacts(w, m, sels, v, path);
        exit := Returned(if v.NilPointer? then Null else Text(v.text));
      case NStruct(o) =>
        ObjectFacts(w, m, sels, v, path);
        exit := MarshalObject(w, o, sels, path);
      case NPtr(o) =>
        ObjectFacts(w, m, sels, v, path);
        if v.NilPointer? {
          if !HasFieldError(path) {
            Error(path);
          }
          exit := Returned(Null);
        } else {
          exit := MarshalObject(w, o, sels, path);
        }
      case OPtr(o) =>
        ObjectFacts(w, m, sels, v, path);
        if v.NilPointer? {
          exit := Returned(Null);
        } else {
          exit := MarshalObject(w, o, sels, path);
        }
      case NList(item) =>
        ListFacts(w, m, sels, v, path);
        var ret := MarshalList(w, item, sels, if v.NilSlice? then [] else v.items, path);
        exit := Returned(ret);
      case OList(item) =>
        ListFacts(w, m, sels, v, path);
        if v.NilSlice? {
          exit := Returned(Null);
        } else {
          var ret := MarshalList(w, item, sels, v.items, path);
          exit := Returned(ret);
        }
    }

    /**
     * The shared body of the list functions: fill every slot, in any order, then scan for nulls. Each
     * element recovers its own panics, so none leaves the list, but one sets the whole slice to nil.
     */
    method MarshalList(w: World, item: Marshal, sels: seq<Field>, items: seq<GoValue>, path: Path) returns (ret: Tree)
      requires ByValue(item) && forall i :: 0 <= i < |items| ==> Asserts(item, items[i])
      modifies this
      ensures ValidatedUnder(Base(TypeFor(item)), sels) && Untouched(old(errors), path) ==>
        errors == old(errors) + CompleteInner(w, GQLGEN, ListOf(TypeFor(item)), Slice(items), sels, path).errs
        && ret == TreeOf(CompleteInner(w, GQLGEN, ListOf(TypeFor(item)), Slice(items), sels, path))
      decreases sels, Height(TypeFor(item)), 2
    {
      ghost var ready := ValidatedUnder(Base(TypeFor(item)), sels) && Untouched(errors, path);
      ghost var rs := ItemResults(w, GQLGEN, TypeFor(item), items, sels, path, |items|);
      var cells := new Tree[|items|];
      hide *;
      var lost := FillCells(w, item, sels, items, path, cells, rs, ready);
      if ready {
        ListDone(w, item, sels, items, path, rs, cells[..]);
      }
      var found := HoldsNull(cells);
      ret := if lost then Arr([]) else if found then Null else Arr(cells[..]);
    }

    /** The scan after wg.Wait: does any element make the list null? */
    method HoldsNull(cells: array<Tree>) returns (found: bool)
      ensures found <==> Null in cells[..]
    {
      for k := 0 to cells.Length
        invariant Null !in cells[..k]
      {
        if cells[k] == Null {
          return true;
        }
      }
      return false;
    }

    /** The goroutines of a list function, one element at a time in any order; `lost` once the slice is nil. */
    method FillCells(w: World, item: Marshal, sels: seq<Field>, items: seq<GoValue>, path: Path,
                     cells: array<Tree>, ghost rs: seq<Completed>, ghost ready: bool)
      returns (lost: bool)
      requires ByValue(item) && forall i :: 0 <= i < |items| ==> Asserts(item, items[i])
      requires cells.Length == |items|
      requires ready ==> ValidatedUnder(Base(TypeFor(item)), sels) && Untouched(errors, path)
      requires rs == ItemResults(w, GQLGEN, TypeFor(item), items, sels, path, |items|)
      modifies this, cells
      ensures ready ==>
        !lost && Filled(rs, Below(|items|), cells[..]) && errors == old(errors) + ErrsOf(rs, Below(|items|))
      decreases sels, Height(TypeFor(item)), 2, 0
    {
      ByValueIsGenerated(item);
      hide *;
      lost := false;
      var pending := Below(|items|);
      ghost var done: set<nat> := {};
      NothingDone(rs, cells[..]);
      while pending != {}
        invariant done !! pending && done + pending == Below(|items|)
        invariant ready ==> !lost && Filled(rs, done, cells[..]) && errors == old(errors) + ErrsOf(rs, done)
        decreases pending
      {
        var i: nat :| i in pending;
        Move(Below(|items|), done, pending, i);
        if ready {
          ItemFacts(w, item, sels, items, path, i, old(errors), rs, done);
        }
        var exit := MarshalValue(w, item, sels, items[i], path + [Index(i)]);
        if exit.Escapes? || lost {
          // the element panicked, or writes to a nil slice; either way it is recovered here
          Error(path + [Index(i)]);
          lost := true;
        } else {
          if ready {
            OneMoreFilled(rs, done, cells[..], i, exit.tree);
          }
          cells[i] := exit.tree;
        }
        pending, done := pending - {i}, done + {i};
      }
      assert done == Below(|items|);
    }

    /** One case of an object function's switch: resolve the field, and say whether its null counts as invalid. */
    method Slot(w: World, obj: ObjectType, sels: seq<Field>, path: Path, i: nat,
                ghost base: multiset<Path>, ghost rs: seq<Completed>, ghost done: set<nat>, ghost ready: bool)
      returns (v: Tree, invalid: bool)
      requires i < |sels| && i !in done && !Unknown(obj, sels[i].name)
      requires rs == FieldResults(w, GQLGEN, obj, sels, path, |sels|)
      requires ready ==> Validated(obj, sels) && Untouched(base, path) && errors == base + ErrsOf(rs, done)
      modifies this
      ensures ready ==>
        errors == base + ErrsOf(rs, done + {i}) && v == TreeOf(rs[i]) && (invalid <==> rs[i].result.Raised?)
      decreases sels, 0, 0, 0
    {
      if ready {
        SlotFacts(w, obj, sels, path, i, base, rs, done);
      }
      assert !sels[i].name.Typename? ==> CodeOf(obj, sels[i].name).Some?;
      hide *;
      var f := sels[i];
      if f.name.Typename? {
        v, invalid := Text(TypeText(obj)), false;
      } else {
        v := ResolveField(w, obj, f, path + [Key(f.key)]);
        invalid := CodeOf(obj, f.name).value.counts && v == Null;
      }
    }

    /** A generated object function such as _Query or ___Type; it panics exactly when it meets an unknown field. */
    method MarshalObject(w: World, obj: ObjectType, sels: seq<Field>, path: Path) returns (exit: Exit)
      modifies this
      ensures exit.Escapes? <==> NamesUnknown(obj, sels)
      ensures Validated(obj, sels) && Untouched(old(errors), path) ==>
        errors == old(errors) + ExecuteSelectionSet(w, GQLGEN, obj, sels, path).errs
        && exit == Returned(TreeOf(ExecuteSelectionSet(w, GQLGEN, obj, sels, path)))
      decreases sels, 0, 1
    {
      ghost var rs := FieldResults(w, GQLGEN, obj, sels, path, |sels|);
      ghost var base, ready := errors, Validated(obj, sels) && Untouched(errors, path);
      if ready {
        ValidatedNamesAreKnown(obj, sels);
      }
      var values := new Tree[|sels|];
      hide *;
      var panics, invalids, delayed, done := Switch(w, obj, sels, path, values, rs, ready);
      if panics {
        return Escapes;
      }
      invalids := Dispatch(w, obj, sels, path, values, invalids, delayed, base, rs, done, ready);
      if ready {
        ObjectDone(w, obj, sels, path, rs, values[..], invalids);
      }
      exit := Returned(if invalids > 0 then Null else Obj(Entries(sels, values[..])));
    }

    /** The loop of an object function: run the fields in turn, set concurrent ones aside, panic on an unknown one. */
    method Switch(w: World, obj: ObjectType, sels: seq<Field>, path: Path, values: array<Tree>,
                  ghost rs: seq<Completed>, ghost ready: bool)
      returns (panics: bool, invalids: nat, delayed: set<nat>, ghost done: set<nat>)
      requires ready ==> Validated(obj, sels) && Untouched(errors, path)
      requires rs == FieldResults(w, GQLGEN, obj, sels, path, |sels|) && values.Length == |sels|
      modifies this, values
      ensures panics <==> NamesUnknown(obj, sels)
      ensures !panics ==> done !! delayed && done + delayed == Below(|sels|)
      ensures !panics ==> forall i :: 0 <= i < |sels| ==> !Unknown(obj, sels[i].name)
      ensures !panics && ready ==>
        Filled(rs, done, values[..]) && Counted(rs, done, invalids) && errors == old(errors) + ErrsOf(rs, done)
      decreases sels, 0, 0, 1
    {
      hide Validated, Untouched, Filled, Counted, ErrsOf, ExecuteField, FieldResults, Below, Unknown, DeclaredType;
      hide CodeOf;
      panics, invalids, delayed, done := false, 0, {}, {};
      NothingDone(rs, values[..]);
      for i := 0 to |sels|
        invariant done !! delayed && done + delayed == Below(i)
        invariant forall j :: 0 <= j < i ==> !Unknown(obj, sels[j].name)
        invariant ready ==>
          Filled(rs, done, values[..]) && Counted(rs, done, invalids) && errors == old(errors) + ErrsOf(rs, done)
      {
        Extend(i, done, delayed);
        if Unknown(obj, sels[i].name) {
          return true, invalids, delayed, done;
        }
        if IsConcurrent(obj, sels[i].name) {
          delayed := delayed + {i};
        } else {
          var v, invalid := Slot(w, obj, sels, path, i, old(errors), rs, done, ready);
          if ready {
            OneMoreDone(rs, done, values[..], invalids, i, v);
          }
          values[i] := v;
          if invalid {
            invalids := invalids + 1;
          }
          done := done + {i};
        }
      }
    }

    /** FieldSet.Dispatch: the delayed fields finish in any order. */
    method Dispatch(w: World, obj: ObjectType, sels: seq<Field>, path: Path, values: array<Tree>, counted: nat,
                    delayed: set<nat>, ghost base: multiset<Path>, ghost rs: seq<Completed>, ghost finished: set<nat>,
                    ghost ready: bool)
      returns (invalids: nat)
      requires rs == FieldResults(w, GQLGEN, obj, sels, path, |sels|) && values.Length == |sels|
      requires finished !! delayed && finished + delayed == Below(|sels|)
      requires forall i :: 0 <= i < |sels| ==> !Unknown(obj, sels[i].name)
      requires ready ==>
        && Validated(obj, sels) && Untouched(base, path)
        && Filled(rs, finished, values[..]) && Counted(rs, finished, counted) && errors == base + ErrsOf(rs, finished)
      modifies this, values
      ensures ready ==>
        && Filled(rs, Below(|sels|), values[..]) && Counted(rs, Below(|sels|), invalids)
        && errors == base + ErrsOf(rs, Below(|sels|))
      decreases sels, 0, 0, 1
    {
      hide *;
      invalids := counted;
      var pending := delayed;
      ghost var done := finished;
      while pending != {}
        invariant done !! pending && done + pending == Below(|sels|)
        invariant ready ==>
          Filled(rs, done, values[..]) && Counted(rs, done, invalids) && errors == base + ErrsOf(rs, done)
        decreases pending
      {
        var j: nat :| j in pending;
        Move(Below(|sels|), done, pending, j);
        var v, invalid := Slot(w, obj, sels, path, j, base, rs, done, ready);
        if ready {
          OneMoreDone(rs, done, values[..], invalids, j, v);
        }
        values[j] := v;
        if invalid {
          invalids := invalids + 1;
        }
        pending, done := pending - {j}, done + {j};
      }
      assert done == Below(|sels|);
    }

    /** A whole operation, from no errors: the reference's data and the reference's errors. */
    method Run(w: World, root: ObjectType, sels: seq<Field>) returns (data: Tree)
      requires Validated(root, sels)
      requires errors == multiset{}
      modifies this
      ensures Completed(Value(data), errors) == Execute(w, GQLGEN, root, sels)
    {
      var exit := MarshalObject(w, root, sels, []);
      data := exit.tree;
    }
  }

  lemma ByValueIsGenerated(m: Marshal)
    requires ByValue(m)
    ensures Generated(m)
  {
  }

  function Below(n: nat): (s: set<nat>)
    ensures forall i: nat :: i in s <==> i < n
  {
    if n == 0 then {} else Below(n - 1) + {n - 1}
  }

  lemma Move(all: set<nat>, done: set<nat>, pending: set<nat>, i: nat)
    requires done !! pending && done + pending == all && i in pending
    ensures i in all && i !in done
    ensures done + {i} !! pending - {i} && (done + {i}) + (pending - {i}) == all
  {
  }

  lemma Extend(i: nat, done: set<nat>, delayed: set<nat>)
    requires done !! delayed && done + delayed == Below(i)
    ensures i !in done && i !in delayed
    ensures (done + {i}) + delayed == Below(i + 1) == done + (delayed + {i})
  {
  }

  function Entries(sels: seq<Field>, values: seq<Tree>): seq<(string, Tree)>
    requires |sels| == |values|
  {
    seq(|sels|, i requires 0 <= i < |sels| => (sels[i].key, values[i]))
  }

  // ---------- The steps of an object function, apart from the heap ----------

  /** What running slot i may rely on, and what it owes. */
  lemma SlotFacts(w: World, obj: ObjectType, sels: seq<Field>, path: Path, i: nat,
                  base: multiset<Path>, rs: seq<Completed>, done: set<nat>)
    requires Validated(obj, sels) && i < |sels| && i !in done
    requires Untouched(base, path)
    requires rs == FieldResults(w, GQLGEN, obj, sels, path, |sels|)
    ensures var f := sels[i];
      && DeclaredType(obj, f.name).Some?
      && ValidatedUnder(Base(TypeOf(STANDARD, obj, f.name)), f.sels)
      && (!f.name.Typename? ==> CodeOf(obj, f.name).Some?)
      && Untouched(base + ErrsOf(rs, done), path + [Key(f.key)])
      && rs[i] == ExecuteField(w, GQLGEN, obj, f, path + [Key(f.key)])
      && ErrsOf(rs, done + {i}) == ErrsOf(rs, done) + rs[i].errs
      && (f.name.Typename? ==> TreeOf(rs[i]) == Text(TypeText(obj)) && rs[i].result.Value? && rs[i].errs == multiset{})
      && (!f.name.Typename? ==>
          (rs[i].result.Raised? <==> CodeOf(obj, f.name).value.counts && TreeOf(rs[i]) == Null))
  {
    hide FieldResults, AllErrs, ErrsOf, Untouched, CodeOf, TypeOf, Base, CompleteValue, Fits;
    var steps := seq(|sels|, j requires 0 <= j < |sels| => Key(sels[j].key));
    FieldsAreSound(w, obj, sels, path, rs, steps);
    SiblingUntouched(base, rs, done, path, steps, i);
    ErrsOfOneMore(rs, done, i);
    CodeFollowsSchema(obj, sels[i].name);
    var t := TypeOf(GQLGEN, obj, sels[i].name);
    assert t.NonNull? && rs[i].result.Value? ==> TreeOf(rs[i]) != Null;
  }

  lemma NothingDone(rs: seq<Completed>, values: seq<Tree>)
    requires |values| == |rs|
    ensures ErrsOf(rs, {}) == multiset{} && Filled(rs, {}, values) && Counted(rs, {}, 0)
  {
    ErrsOfNone(rs);
  }

  lemma OneMoreDone(rs: seq<Completed>, done: set<nat>, values: seq<Tree>, invalids: nat, i: nat, v: Tree)
    requires i < |rs| && i !in done
    requires Filled(rs, done, values) && Counted(rs, done, invalids)
    requires v == TreeOf(rs[i])
    ensures |values| == |rs| && Filled(rs, done + {i}, values[i := v])
    ensures Counted(rs, done + {i}, if rs[i].result.Raised? then invalids + 1 else invalids)
  {
  }

  lemma OneMoreFilled(rs: seq<Completed>, done: set<nat>, values: seq<Tree>, i: nat, v: Tree)
    requires i < |rs| && i !in done
    requires Filled(rs, done, values) && v == TreeOf(rs[i])
    ensures |values| == |rs| && Filled(rs, done + {i}, values[i := v])
  {
  }

  lemma ItemsAreSound(w: World, item: Marshal, sels: seq<Field>, items: seq<GoValue>, path: Path,
                      rs: seq<Completed>, steps: seq<Step>)
    requires ByValue(item) && ValidatedUnder(Base(TypeFor(item)), sels)
    requires rs == ItemResults(w, GQLGEN, TypeFor(item), items, sels, path, |items|)
    requires steps == seq(|items|, i requires 0 <= i < |items| => Index(i))
    ensures forall i :: 0 <= i < |items| ==> Sound(GQLGEN, TypeFor(item), sels, path + [steps[i]], rs[i])
  {
    hide CompleteValue, ItemResults, Sound, ValidatedUnder;
    forall i | 0 <= i < |items| ensures Sound(GQLGEN, TypeFor(item), sels, path + [steps[i]], rs[i]) {
      ValueIsSound(w, GQLGEN, TypeFor(item), items[i], sels, path + [steps[i]]);
    }
  }

  /** What marshalling element i may rely on, and what it owes. */
  lemma ItemFacts(w: World, item: Marshal, sels: seq<Field>, items: seq<GoValue>, path: Path, i: nat,
                  base: multiset<Path>, rs: seq<Completed>, done: set<nat>)
    requires ByValue(item) && ValidatedUnder(Base(TypeFor(item)), sels)
    requires i < |items| && i !in done && Untouched(base, path)
    requires rs == ItemResults(w, GQLGEN, TypeFor(item), items, sels, path, |items|)
    ensures Generated(item)
    ensures Untouched(base + ErrsOf(rs, done), path + [Index(i)])
    ensures rs[i] == CompleteValue(w, GQLGEN, TypeFor(item), items[i], sels, path + [Index(i)])
    ensures ErrsOf(rs, done + {i}) == ErrsOf(rs, done) + rs[i].errs
  {
    var steps := seq(|items|, j requires 0 <= j < |items| => Index(j));
    ItemsAreSound(w, item, sels, items, path, rs, steps);
    SiblingUntouched(base, rs, done, path, steps, i);
    ErrsOfOneMore(rs, done, i);
  }

  lemma ListDone(w: World, item: Marshal, sels: seq<Field>, items: seq<GoValue>, path: Path,
                 rs: seq<Completed>, cells: seq<Tree>)
    requires ByValue(item) && ValidatedUnder(Base(TypeFor(item)), sels)
    requires rs == ItemResults(w, GQLGEN, TypeFor(item), items, sels, path, |items|)
    requires Filled(rs, Below(|items|), cells)
    ensures |cells| == |items|
    ensures var c := CompleteInner(w, GQLGEN, ListOf(TypeFor(item)), Slice(items), sels, path);
      && c.errs == ErrsOf(rs, Below(|items|))
      && TreeOf(c) == if Null in cells then Null else Arr(cells)
  {
    NullMeansRaised(w, item, sels, items, path, rs);
    ErrsOfAll(rs, Below(|items|));
    assert forall i :: 0 <= i < |cells| ==> cells[i] == TreeOf(rs[i]);
    hide CompleteValue, ItemResults, Sound, Base, Validated, ValidatedUnder, AllErrs, ErrsOf, Filled, TreeOf, ByValue;
    assert Null in cells ==> AnyRaised(rs);
    assert cells == seq(|rs|, i requires 0 <= i < |rs| => TreeOf(rs[i]));
  }

  lemma NullMeansRaised(w: World, item: Marshal, sels: seq<Field>, items: seq<GoValue>, path: Path, rs: seq<Completed>)
    requires ByValue(item) && ValidatedUnder(Base(TypeFor(item)), sels)
    requires rs == ItemResults(w, GQLGEN, TypeFor(item), items, sels, path, |items|)
    ensures forall i :: 0 <= i < |items| ==> (TreeOf(rs[i]) == Null <==> rs[i].result.Raised?)
  {
  }

  lemma ObjectDone(w: World, obj: ObjectType, sels: seq<Field>, path: Path,
                   rs: seq<Completed>, values: seq<Tree>, invalids: nat)
    requires rs == FieldResults(w, GQLGEN, obj, sels, path, |sels|)
    requires Filled(rs, Below(|sels|), values) && Counted(rs, Below(|sels|), invalids)
    ensures |values| == |sels|
    ensures ExecuteSelectionSet(w, GQLGEN, obj, sels, path).errs == ErrsOf(rs, Below(|sels|))
    ensures TreeOf(ExecuteSelectionSet(w, GQLGEN, obj, sels, path))
         == if invalids > 0 then Null else Obj(Entries(sels, values))
  {
    ErrsOfAll(rs, Below(|sels|));
    assert invalids > 0 <==> AnyRaised(rs);
    hide ExecuteField, FieldResults, AllErrs, ErrsOf;
    assert Entries(sels, values) == seq(|sels|, i requires 0 <= i < |sels| => (sels[i].key, TreeOf(rs[i])));
  }

  predicate IsConcurrent(obj: ObjectType, name: FieldName) {
    CodeOf(obj, name).Some? && CodeOf(obj, name).value.concurrent
  }

  lemma NilCompletes(w: World, t: TypeRef, sels: seq<Field>, path: Path)
    requires WellFormed(t)
    ensures CompleteValue(w, GQLGEN, t, UntypedNil, sels, path)
         == Completed(if t.NonNull? then Raised else Value(Null), if t.NonNull? then multiset{path} else multiset{})
  {
  }

  lemma ObjectNeverNull(w: World, obj: ObjectType, sels: seq<Field>, path: Path)
    ensures ExecuteSelectionSet(w, GQLGEN, obj, sels, path).result != Value(Null)
  {
  }

  lemma ListNeverNull(w: World, t: TypeRef, items: seq<GoValue>, sels: seq<Field>, path: Path)
    ensures CompleteInner(w, GQLGEN, ListOf(t), Slice(items), sels, path).result != Value(Null)
  {
  }

  predicate ShowsAs(c: Completed, tree: Tree, errs: multiset<Path>) {
    TreeOf(c) == tree && c.errs == errs
  }

  /** The completions agree on what a response shows. */
  predicate SameShow(c: Completed, d: Completed) {
    ShowsAs(c, TreeOf(d), d.errs)
  }

  // ---------- What each marshal function owes, branch by branch ----------

  lemma LeafFacts(w: World, m: Marshal, sels: seq<Field>, v: GoValue, path: Path)
    requires (m.NLeaf? || m.OLeafPtr?) && Asserts(m, v)
    ensures v.Leaf? || (m.OLeafPtr? && v.NilPointer?)
    ensures ShowsAs(CompleteValue(w, GQLGEN, TypeFor(m), v, sels, path),
                    if v.Leaf? then Text(v.text) else Null, multiset{})
  {
  }

  lemma ObjectFacts(w: World, m: Marshal, sels: seq<Field>, v: GoValue, path: Path)
    requires (m.NStruct? || m.NPtr? || m.OPtr?) && Asserts(m, v)
    ensures Base(TypeFor(m)) == Object(m.kind) && (v.NilPointer? || v.Struct?)
    ensures v.NilPointer? ==>
      !m.NStruct?
      && ShowsAs(CompleteValue(w, GQLGEN, TypeFor(m), v, sels, path),
                 Null, if m.NPtr? then multiset{path} else multiset{})
    ensures !v.NilPointer? ==>
      SameShow(CompleteValue(w, GQLGEN, TypeFor(m), v, sels, path), ExecuteSelectionSet(w, GQLGEN, m.kind, sels, path))
  {
    ObjectNeverNull(w, m.kind, sels, path);
    hide ExecuteSelectionSet, ItemResults;
    assert TypeFor(m) == if m.OPtr? then Object(m.kind) else NonNull(Object(m.kind));
    assert v.NilPointer? || v.Struct?;
  }

  lemma ListCompletes(w: World, t: TypeRef, v: GoValue, sels: seq<Field>, path: Path)
    requires v.NilSlice? || v.Slice?
    ensures var d := CompleteInner(w, GQLGEN, ListOf(t), Slice(if v.Slice? then v.items else []), sels, path);
      && (d.result != Value(Null) ==> SameShow(CompleteValue(w, GQLGEN, NonNull(ListOf(t)), v, sels, path), d))
      && (v.Slice? ==> SameShow(CompleteValue(w, GQLGEN, ListOf(t), v, sels, path), d))
    ensures v.NilSlice? ==> ShowsAs(CompleteValue(w, GQLGEN, ListOf(t), v, sels, path), Null, multiset{})
  {
    if v.Slice? {
      hide CompleteInner;
      assert Slice(v.items) == v;
    } else {
      assert CompleteInner(w, GQLGEN, ListOf(t), v, sels, path) == Completed(Value(Null), multiset{});
      hide CompleteInner;
    }
  }

  lemma ListFacts(w: World, m: Marshal, sels: seq<Field>, v: GoValue, path: Path)
    requires (m.NList? || m.OList?) && Generated(m) && Asserts(m, v)
    ensures ByValue(m.item) && Base(TypeFor(m.item)) == Base(TypeFor(m)) && Height(TypeFor(m.item)) < Height(TypeFor(m))
    ensures v.NilSlice? || v.Slice?
    ensures v.Slice? ==> forall i :: 0 <= i < |v.items| ==> Asserts(m.item, v.items[i])
    ensures m.OList? && v.NilSlice? ==>
      ShowsAs(CompleteValue(w, GQLGEN, TypeFor(m), v, sels, path), Null, multiset{})
    ensures m.NList? || v.Slice? ==>
      SameShow(CompleteValue(w, GQLGEN, TypeFor(m), v, sels, path),
               CompleteInner(w, GQLGEN, ListOf(TypeFor(m.item)), Slice(if v.Slice? then v.items else []), sels, path))
  {
    var t := TypeFor(m.item);
    assert TypeFor(m) == if m.NList? then NonNull(ListOf(t)) else ListOf(t);
    ListNeverNull(w, t, if v.Slice? then v.items else [], sels, path);
    hide TypeFor;
    ListCompletes(w, t, v, sels, path);
  }
}

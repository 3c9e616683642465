/**
 * A recursive reference for executing a selection set, after sections 6.4.3
 * (Value Completion) and 6.4.4 (Handling Field Errors) of the GraphQL
 * specification, October 2021. It has no counters, no goroutines and no null
 * checks after the fact: a field error is raised and travels upward by itself.
 */
module GraphqlSpec {
  import opened Core

  datatype ObjectType =
    | QueryObject | MutationObject | UserObject
    | DirectiveObject | EnumValueObject | FieldObject | InputValueObject | SchemaObject | TypeObject

  datatype FieldName =
    | Typename
    | CreateUser | UpdateUser | DeleteUser
    | Users | UserById | TypeByName | SchemaRoot
    | Id | Name | Email | CreatedAt | UpdatedAt | DeletedAt
    | Description | Locations | Args | IsRepeatable | IsDeprecated | DeprecationReason
    | OfFieldType | DefaultValue
    | Types | QueryType | MutationType | SubscriptionType | Directives
    | Kind | Fields | Interfaces | PossibleTypes | EnumValues | InputFields | OfType | SpecifiedByUrl

  datatype TypeRef = Scalar | Object(kind: ObjectType) | ListOf(item: TypeRef) | NonNull(inner: TypeRef)

  /** A collected field: its name, its response key and its sub-selections. */
  datatype Field = Field(name: FieldName, key: string, sels: seq<Field>)

  datatype Step = Key(key: string) | Index(index: nat)
  type Path = seq<Step>

  /** What a resolver hands back, as the Go value inside an `interface{}`. */
  datatype GoValue =
    | UntypedNil
    | NilPointer
    | Leaf(text: string)
    | Struct
    | NilSlice
    | Slice(items: seq<GoValue>)

  /** How one field's resolution ends. */
  datatype Outcome = BadArguments | Fails | Panics | Returns(value: GoValue)

  /** The outcome of the field at each response position. */
  type World = Path -> Outcome

  datatype Tree = Null | Text(text: string) | Arr(items: seq<Tree>) | Obj(entries: seq<(string, Tree)>)

  datatype Completion = Raised | Value(tree: Tree)

  datatype Completed = Completed(result: Completion, errs: multiset<Path>)

  /**
   * The two points on which a Go executor may read the specification loosely:
   * whether a nil slice in a non-null list position is an empty list rather
   * than null, and whether `__schema` is nullable.
   */
  datatype Rules = Rules(nilSliceIsEmpty: bool, schemaIsNullable: bool)

  const STANDARD := Rules(false, false)
  const GQLGEN := Rules(true, true)

  function DeclaredType(obj: ObjectType, name: FieldName): Option<TypeRef> {
    var required := NonNull(Scalar);
    if name.Typename? then Some(required) else
    match obj
    case QueryObject =>
      (match name
       case Users => Some(NonNull(ListOf(NonNull(Object(UserObject)))))
       case UserById => Some(Object(UserObject))
       case TypeByName => Some(Object(TypeObject))
       case SchemaRoot => Some(NonNull(Object(SchemaObject)))
       case _ => None)
    case MutationObject =>
      (match name
       case CreateUser => Some(NonNull(Object(UserObject)))
       case UpdateUser => Some(NonNull(Object(UserObject)))
       case DeleteUser => Some(required)
       case _ => None)
    case UserObject =>
      (match name
       case Id => Some(required)
       case Name => Some(required)
       case Email => Some(required)
       case CreatedAt => Some(required)
       case UpdatedAt => Some(required)
       case DeletedAt => Some(Scalar)
       case _ => None)
    case DirectiveObject =>
      (match name
       case Name => Some(required)
       case Description => Some(Scalar)
       case Locations => Some(NonNull(ListOf(required)))
       case Args => Some(NonNull(ListOf(NonNull(Object(InputValueObject)))))
       case IsRepeatable => Some(required)
       case _ => None)
    case EnumValueObject =>
      (match name
       case Name => Some(required)
       case Description => Some(Scalar)
       case IsDeprecated => Some(required)
       case DeprecationReason => Some(Scalar)
       case _ => None)
    case FieldObject =>
      (match name
       case Name => Some(required)
       case Description => Some(Scalar)
       case Args => Some(NonNull(ListOf(NonNull(Object(InputValueObject)))))
       case OfFieldType => Some(NonNull(Object(TypeObject)))
       case IsDeprecated => Some(required)
       case DeprecationReason => Some(Scalar)
       case _ => None)
    case InputValueObject =>
      (match name
       case Name => Some(required)
       case Description => Some(Scalar)
       case OfFieldType => Some(NonNull(Object(TypeObject)))
       case DefaultValue => Some(Scalar)
       case _ => None)
    case SchemaObject =>
      (match name
       case Description => Some(Scalar)
       case Types => Some(NonNull(ListOf(NonNull(Object(TypeObject)))))
       case QueryType => Some(NonNull(Object(TypeObject)))
       case MutationType => Some(Object(TypeObject))
       case SubscriptionType => Some(Object(TypeObject))
       case Directives => Some(NonNull(ListOf(NonNull(Object(DirectiveObject)))))
       case _ => None)
    case TypeObject =>
      (match name
       case Kind => Some(required)
       case Name => Some(Scalar)
       case Description => Some(Scalar)
       case Fields => Some(ListOf(NonNull(Object(FieldObject))))
       case Interfaces => Some(ListOf(NonNull(Object(TypeObject))))
       case PossibleTypes => Some(ListOf(NonNull(Object(TypeObject))))
       case EnumValues => Some(ListOf(NonNull(Object(EnumValueObject))))
       case InputFields => Some(ListOf(NonNull(Object(InputValueObject))))
       case OfType => Some(Object(TypeObject))
       case SpecifiedByUrl => Some(Scalar)
       case _ => None)
  }

  /** The type at which a field is completed; unknown fields never reach here in a validated selection. */
  function TypeOf(rules: Rules, obj: ObjectType, name: FieldName): TypeRef {
    if obj.QueryObject? && name.SchemaRoot? && rules.schemaIsNullable then Object(SchemaObject)
    else
      var t := DeclaredType(obj, name);
      if t.Some? then t.value else Scalar
  }

  function Base(t: TypeRef): TypeRef {
    match t
    case ListOf(item) => Base(item)
    case NonNull(inner) => Base(inner)
    case _ => t
  }

  /** A non-null type never wraps a non-null type. */
  predicate WellFormed(t: TypeRef) {
    match t
    case NonNull(inner) => !inner.NonNull? && WellFormed(inner)
    case ListOf(item) => WellFormed(item)
    case _ => true
  }

  /** A validated, collected selection set: known fields under distinct response keys. */
  predicate Validated(obj: ObjectType, sels: seq<Field>)
    decreases sels, 0
  {
    && (forall i, j :: 0 <= i < j < |sels| ==> sels[i].key != sels[j].key)
    && (forall i :: 0 <= i < |sels| ==> DeclaredType(obj, sels[i].name).Some?)
    && (forall i :: 0 <= i < |sels| ==> ValidatedUnder(Base(TypeOf(STANDARD, obj, sels[i].name)), sels[i].sels))
  }

  predicate ValidatedUnder(base: TypeRef, sels: seq<Field>)
    decreases sels, 1
  {
    if base.Object? then Validated(base.kind, sels) else sels == []
  }

  function Height(t: TypeRef): (h: nat)
    ensures h > 0
  {
    match t
    case ListOf(item) => 1 + Height(item)
    case NonNull(inner) => 1 + Height(inner)
    case _ => 1
  }

  /** The Go value has the static type the schema type is mapped to; list items are not behind pointers. */
  predicate Fits(t: TypeRef, v: GoValue, pointer: bool) {
    match t
    case Scalar => v.NilPointer? || v.Leaf?
    case Object(_) => v.Struct? || (pointer && v.NilPointer?)
    case ListOf(item) => v.NilSlice? || (v.Slice? && forall i :: 0 <= i < |v.items| ==> Fits(item, v.items[i], false))
    case NonNull(inner) => if inner.Scalar? then v.Leaf? else Fits(inner, v, pointer)
  }

  predicate IsNull(v: GoValue) {
    v.UntypedNil? || v.NilPointer? || v.NilSlice?
  }

  function AnyRaised(rs: seq<Completed>): bool {
    exists i :: 0 <= i < |rs| && rs[i].result.Raised?
  }

  function AllErrs(rs: seq<Completed>): multiset<Path> {
    if rs == [] then multiset{} else AllErrs(rs[..|rs| - 1]) + rs[|rs| - 1].errs
  }

  function TreeOf(c: Completed): Tree {
    if c.result.Raised? then Null else c.result.tree
  }

  /** A nullable position absorbs an error raised below it. */
  function Absorb(c: Completed): Completed {
    c.(result := Value(TreeOf(c)))
  }

  function TypeText(obj: ObjectType): string {
    match obj
    case QueryObject => "Query"
    case MutationObject => "Mutation"
    case UserObject => "User"
    case DirectiveObject => "__Directive"
    case EnumValueObject => "__EnumValue"
    case FieldObject => "__Field"
    case InputValueObject => "__InputValue"
    case SchemaObject => "__Schema"
    case TypeObject => "__Type"
  }

  function ExecuteSelectionSet(w: World, rules: Rules, obj: ObjectType, sels: seq<Field>, path: Path): Completed
    decreases sels, 0, 0
  {
    var rs := FieldResults(w, rules, obj, sels, path, |sels|);
    Completed(
      if AnyRaised(rs) then Raised
      else Value(Obj(seq(|sels|, i requires 0 <= i < |sels| => (sels[i].key, TreeOf(rs[i]))))),
      AllErrs(rs))
  }

  /** The first n fields of a selection set, each at its own position. */
  function FieldResults(w: World, rules: Rules, obj: ObjectType, sels: seq<Field>, path: Path, n: nat)
    : (rs: seq<Completed>)
    requires n <= |sels|
    ensures |rs| == n
    ensures forall i :: 0 <= i < n ==> rs[i] == ExecuteField(w, rules, obj, sels[i], path + [Key(sels[i].key)])
    decreases sels, 0, 0, n
  {
    if n == 0 then []
    else FieldResults(w, rules, obj, sels, path, n - 1)
         + [ExecuteField(w, rules, obj, sels[n - 1], path + [Key(sels[n - 1].key)])]
  }

  function ExecuteField(w: World, rules: Rules, obj: ObjectType, f: Field, path: Path): Completed
    decreases f, 0, 0
  {
    if f.name.Typename? then Completed(Value(Text(TypeText(obj))), multiset{})
    else
      var t := TypeOf(rules, obj, f.name);
      match w(path)
      case Returns(v) =>
        if v.UntypedNil? || Fits(t, v, true) then CompleteValue(w, rules, t, v, f.sels, path) else Failed(t, path)
      case _ => Failed(t, path)
  }

  function Failed(t: TypeRef, path: Path): Completed {
    Completed(if t.NonNull? then Raised else Value(Null), multiset{path})
  }

  function CompleteValue(w: World, rules: Rules, t: TypeRef, v: GoValue, sels: seq<Field>, path: Path): Completed
    decreases sels, Height(t), 1
  {
    if t.NonNull? then
      var v' := if rules.nilSliceIsEmpty && t.inner.ListOf? && v.NilSlice? then Slice([]) else v;
      var c := CompleteInner(w, rules, t.inner, v', sels, path);
      if c.result == Value(Null) then Completed(Raised, c.errs + multiset{path}) else c
    else Absorb(CompleteInner(w, rules, t, v, sels, path))
  }

  function CompleteInner(w: World, rules: Rules, t: TypeRef, v: GoValue, sels: seq<Field>, path: Path): Completed
    decreases sels, Height(t), 0
  {
    if IsNull(v) then Completed(Value(Null), multiset{})
    else if t.Scalar? && v.Leaf? then Completed(Value(Text(v.text)), multiset{})
    else if t.Object? && v.Struct? then ExecuteSelectionSet(w, rules, t.kind, sels, path)
    else if t.ListOf? && v.Slice? then
      var rs := ItemResults(w, rules, t.item, v.items, sels, path, |v.items|);
      Completed(
        if AnyRaised(rs) then Raised else Value(Arr(seq(|rs|, i requires 0 <= i < |rs| => TreeOf(rs[i])))),
        AllErrs(rs))
    else Completed(Raised, multiset{path})
  }

  function ItemResults(w: World, rules: Rules, t: TypeRef, items: seq<GoValue>, sels: seq<Field>, path: Path, n: nat)
    : (rs: seq<Completed>)
    requires n <= |items|
    ensures |rs| == n
    ensures forall i :: 0 <= i < n ==> rs[i] == CompleteValue(w, rules, t, items[i], sels, path + [Index(i)])
    decreases sels, Height(t), 2, n
  {
    if n == 0 then []
    else ItemResults(w, rules, t, items, sels, path, n - 1)
         + [CompleteValue(w, rules, t, items[n - 1], sels, path + [Index(n - 1)])]
  }

  /** A whole operation: errors no nullable position absorbed make `data` null. */
  function Execute(w: World, rules: Rules, root: ObjectType, sels: seq<Field>): Completed {
    Absorb(ExecuteSelectionSet(w, rules, root, sels, []))
  }
}

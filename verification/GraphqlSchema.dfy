/** The schema as it is written down, type by type, against the table the executor's reference goes by. */
module GraphqlSchema {
  import opened Core
  import opened GraphqlSpec

  /** A field's line: its type is the name between what opens and what closes it, as in `[User!]!`. */
  datatype Line = Line(open: string, name: string, close: string)

  const SCALARS := {"ID", "String", "Boolean", "__TypeKind", "__DirectiveLocation"}

  /** The line of a field in the type's definition, if it has one. */
  function LineOf(obj: ObjectType, name: FieldName): Option<Line> {
    match (obj, name)
    case (UserObject, Id) => Some(Line("", "ID", "!"))
    case (UserObject, Name) => Some(Line("", "String", "!"))
    case (UserObject, Email) => Some(Line("", "String", "!"))
    case (UserObject, CreatedAt) => Some(Line("", "String", "!"))
    case (UserObject, UpdatedAt) => Some(Line("", "String", "!"))
    case (UserObject, DeletedAt) => Some(Line("", "String", ""))
    case (QueryObject, Users) => Some(Line("[", "User", "!]!"))
    case (QueryObject, UserById) => Some(Line("", "User", ""))
    case (QueryObject, TypeByName) => Some(Line("", "__Type", ""))
    case (QueryObject, SchemaRoot) => Some(Line("", "__Schema", "!"))
    case (MutationObject, CreateUser) => Some(Line("", "User", "!"))
    case (MutationObject, UpdateUser) => Some(Line("", "User", "!"))
    case (MutationObject, DeleteUser) => Some(Line("", "Boolean", "!"))
    case (SchemaObject, Description) => Some(Line("", "String", ""))
    case (SchemaObject, Types) => Some(Line("[", "__Type", "!]!"))
    case (SchemaObject, QueryType) => Some(Line("", "__Type", "!"))
    case (SchemaObject, MutationType) => Some(Line("", "__Type", ""))
    case (SchemaObject, SubscriptionType) => Some(Line("", "__Type", ""))
    case (SchemaObject, Directives) => Some(Line("[", "__Directive", "!]!"))
    case (TypeObject, Kind) => Some(Line("", "__TypeKind", "!"))
    case (TypeObject, Name) => Some(Line("", "String", ""))
    case (TypeObject, Description) => Some(Line("", "String", ""))
    case (TypeObject, Fields) => Some(Line("[", "__Field", "!]"))
    case (TypeObject, Interfaces) => Some(Line("[", "__Type", "!]"))
    case (TypeObject, PossibleTypes) => Some(Line("[", "__Type", "!]"))
    case (TypeObject, EnumValues) => Some(Line("[", "__EnumValue", "!]"))
    case (TypeObject, InputFields) => Some(Line("[", "__InputValue", "!]"))
    case (TypeObject, OfType) => Some(Line("", "__Type", ""))
    case (TypeObject, SpecifiedByUrl) => Some(Line("", "String", ""))
    case (FieldObject, Name) => Some(Line("", "String", "!"))
    case (FieldObject, Description) => Some(Line("", "String", ""))
    case (FieldObject, Args) => Some(Line("[", "__InputValue", "!]!"))
    case (FieldObject, OfFieldType) => Some(Line("", "__Type", "!"))
    case (FieldObject, IsDeprecated) => Some(Line("", "Boolean", "!"))
    case (FieldObject, DeprecationReason) => Some(Line("", "String", ""))
    case (InputValueObject, Name) => Some(Line("", "String", "!"))
    case (InputValueObject, Description) => Some(Line("", "String", ""))
    case (InputValueObject, OfFieldType) => Some(Line("", "__Type", "!"))
    case (InputValueObject, DefaultValue) => Some(Line("", "String", ""))
    case (EnumValueObject, Name) => Some(Line("", "String", "!"))
    case (EnumValueObject, Description) => Some(Line("", "String", ""))
    case (EnumValueObject, IsDeprecated) => Some(Line("", "Boolean", "!"))
    case (EnumValueObject, DeprecationReason) => Some(Line("", "String", ""))
    case (DirectiveObject, Name) => Some(Line("", "String", "!"))
    case (DirectiveObject, Description) => Some(Line("", "String", ""))
    case (DirectiveObject, Locations) => Some(Line("[", "__DirectiveLocation", "!]!"))
    case (DirectiveObject, Args) => Some(Line("[", "__InputValue", "!]!"))
    case (DirectiveObject, IsRepeatable) => Some(Line("", "Boolean", "!"))
    case _ => None
  }

  function Opening(t: TypeRef): string {
    match t
    case ListOf(item) => "[" + Opening(item)
    case NonNull(inner) => Opening(inner)
    case _ => ""
  }

  function Closing(t: TypeRef): string {
    match t
    case ListOf(item) => Closing(item) + "]"
    case NonNull(inner) => Closing(inner) + "!"
    case _ => ""
  }

  /** The type is what the line says. */
  predicate Says(l: Line, t: TypeRef) {
    && Opening(t) == l.open && Closing(t) == l.close
    && match Base(t)
       case Object(o) => TypeText(o) == l.name
       case _ => l.name in SCALARS
  }

  /** The types that occur, each with its text. */
  lemma ShapesAreWritten(base: TypeRef)
    requires base.Scalar? || base.Object?
    ensures Opening(base) == "" && Closing(base) == "" && Base(base) == base
    ensures var t := NonNull(base); Opening(t) == "" && Closing(t) == "!" && Base(t) == base
    ensures var t := ListOf(NonNull(base)); Opening(t) == "[" && Closing(t) == "!]" && Base(t) == base
    ensures var t := NonNull(ListOf(NonNull(base))); Opening(t) == "[" && Closing(t) == "!]!" && Base(t) == base
  {
    var t := ListOf(NonNull(base));
    assert Opening(NonNull(base)) == "" && Closing(NonNull(base)) == "!" && Base(NonNull(base)) == base;
    assert Opening(t) == "[" && Closing(t) == "!]" && Base(t) == base;
  }

  /**
   * The table holds the fields the schema lists for each type, with the nullability and the lists it
   * writes, and `__typename` besides; no field and no exclamation mark more.
   */
  lemma TableIsTheSchema(obj: ObjectType, name: FieldName)
    requires !name.Typename?
    ensures DeclaredType(obj, name).Some? <==> LineOf(obj, name).Some?
    ensures LineOf(obj, name).Some? ==> Says(LineOf(obj, name).value, DeclaredType(obj, name).value)
  {
    if DeclaredType(obj, name).Some? {
      FieldsHaveShapes(obj, name);
      var t := DeclaredType(obj, name).value;
      ShapesAreWritten(Base(t));
      hide Opening, Closing, Base;
    }
  }

  lemma FieldsHaveShapes(obj: ObjectType, name: FieldName)
    requires DeclaredType(obj, name).Some?
    ensures var t := DeclaredType(obj, name).value; var base := Base(t);
      && (base.Scalar? || base.Object?)
      && t in {base, NonNull(base), ListOf(NonNull(base)), NonNull(ListOf(NonNull(base)))}
  {
  }
}

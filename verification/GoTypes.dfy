/** The part of go/types that the Reset generator looks at: types, declared names and method sets. */
module GoTypes {
  import opened Optional

  datatype TypeId = TypeId(pkg: string, name: string)

  // `via` is the embedded field that a method is promoted through, None where it is the type's own.
  datatype Method = Method(name: string, params: nat, via: Option<string>)

  // Method sets of a type T and of *T, as go/types reports them.
  datatype MethodSets = MethodSets(value: seq<Method>, pointer: seq<Method>)

  datatype Field = Field(name: string, exported: bool, embedded: bool, typ: GoType)

  // What a variable of a basic type holds. byte and rune are other names for integer types.
  datatype Kind = StringKind | BoolKind | IntKind | FloatKind | ComplexKind

  function KindOf(name: string): Option<Kind> {
    if name == "string" then Some(StringKind)
    else if name == "bool" then Some(BoolKind)
    else if name in ["int", "int8", "int16", "int32", "int64", "uint", "uint8", "uint16", "uint32", "uint64",
                     "uintptr", "byte", "rune"] then Some(IntKind)
    else if name == "float32" || name == "float64" then Some(FloatKind)
    else if name == "complex64" || name == "complex128" then Some(ComplexKind)
    else None
  }

  // The basic types that the generator has a zero value for.
  predicate Settable(name: string) {
    KindOf(name).Some? && name != "byte" && name != "rune"
  }

  const NO_METHODS := MethodSets([], [])

  // A field that is declared with a name.
  function Plain(name: string, exported: bool, typ: GoType): Field {
    Field(name, exported, false, typ)
  }

  // Named types are references into an Env, so types can be recursive.
  datatype GoType =
    | Basic(name: string)
    | Slice(elem: GoType)
    | Array(len: nat, elem: GoType)
    | Map(key: GoType, value: GoType)
    | Named(id: TypeId)
    | Pointer(elem: GoType)
    | Struct(fields: seq<Field>, methods: MethodSets)
    | Interface(methods: MethodSets)
    | Other(description: string)

  // `exported` says whether other packages can write the name.
  datatype Decl = Decl(underlying: GoType, methods: MethodSets, exported: bool)

  /** `marked` holds the structs with a generate:reset comment. `stack` is how many declared names deep
      the generator can recurse before its stack overflows. */
  datatype Env = Env(
    decls: map<TypeId, Decl>,
    packageNames: map<string, string>,
    marked: set<TypeId>,
    stack: nat)

  predicate IsReset(m: Method) {
    m.name == "Reset" && m.params == 0
  }

  function FirstReset(ms: seq<Method>): Option<Method> {
    if ms == [] then None else if IsReset(ms[0]) then Some(ms[0]) else FirstReset(ms[1..])
  }

  predicate HasReset(ms: MethodSets) {
    FirstReset(ms.value + ms.pointer).Some?
  }

  function Under(env: Env, id: TypeId): GoType {
    if id in env.decls then env.decls[id].underlying else Other("undeclared")
  }

  function Core(env: Env, t: GoType): GoType {
    if t.Named? then Under(env, t.id) else t
  }

  function FieldType(fields: seq<Field>, name: string): Option<GoType> {
    if fields == [] then None
    else if fields[0].name == name then Some(fields[0].typ)
    else FieldType(fields[1..], name)
  }

  // ---- Where a Reset method comes from ----

  // Reset is a method the generator writes for this type.
  predicate Generated(env: Env, t: GoType) {
    t.Named? && t.id in env.marked && Under(env, t.id).Struct?
  }

  // The methods of a declared name are its own: a Reset with parameters hides one that would be promoted.
  function MethodsOf(env: Env, t: GoType): MethodSets {
    match t
    case Named(id) => if id in env.decls then env.decls[id].methods else NO_METHODS
    case Struct(_, methods) => methods
    case Interface(methods) => methods
    case _ => NO_METHODS
  }

  predicate HasMethod(env: Env, t: GoType) {
    (t.Named? && t.id in env.marked) || HasReset(MethodsOf(env, t))
  }

  // Whether a call r.f.Reset() is emitted for a struct or interface declared under this name.
  predicate Resettable(env: Env, id: TypeId) {
    HasMethod(env, Named(id))
  }

  // A struct type with a Reset method.
  predicate Object(env: Env, t: GoType) {
    Core(env, t).Struct? && HasMethod(env, t)
  }

  // A struct type with a Reset method that values have, not only pointers to them. Generated methods are not.
  predicate ValueObject(env: Env, t: GoType) {
    Object(env, t) && !Generated(env, t) && FirstReset(MethodsOf(env, t).value).Some?
  }

  // A type that a struct can embed to have its Reset method promoted: a struct, a pointer to one, an interface.
  predicate Promotes(env: Env, t: GoType) {
    if t.Pointer? then Object(env, t.elem) else Object(env, t) || (Core(env, t).Interface? && HasMethod(env, t))
  }

  // The embedded field that the Reset of a struct type is promoted from.
  function Relayed(env: Env, t: GoType): Option<Field> {
    if Generated(env, t) || !Core(env, t).Struct? then None
    else
      match FirstReset(MethodsOf(env, t).value + MethodsOf(env, t).pointer)
      case Some(Method(_, _, Some(f))) => Embedded(env, Core(env, t).fields, f)
      case _ => None
  }

  function Embedded(env: Env, fields: seq<Field>, name: string): Option<Field> {
    match FieldType(fields, name)
    case Some(t) => if name != "_" && Promotes(env, t) then Some(Field(name, true, true, t)) else None
    case None => None
  }

  /** Whether a field that is not exported lies open in a variable of this type, with no declared name
      around it. Such an object can only be replaced as a whole. */
  predicate Hides(t: GoType, pointer: bool, hasReset: bool)
    decreases t
  {
    match t
    case Pointer(elem) => Hides(elem, true, hasReset)
    case Struct(fields, methods) => pointer && !hasReset && !HasReset(methods) && HidesField(fields)
    case _ => false
  }

  predicate HidesField(fields: seq<Field>)
    decreases fields
  {
    fields != [] && (!fields[0].exported || Hides(fields[0].typ, false, false) || HidesField(fields[1..]))
  }

  // ---- What Go guarantees of a program that type-checks ----

  // No two fields of a struct share a name that can be selected.
  predicate DistinctFields(fields: seq<Field>) {
    forall i, j :: 0 <= i < j < |fields| && fields[i].name == fields[j].name ==> fields[i].name == "_"
  }

  predicate ValidType(t: GoType) {
    match t
    case Pointer(elem) => ValidType(elem)
    case Struct(fields, _) =>
      DistinctFields(fields) && forall i :: 0 <= i < |fields| ==> ValidType(fields[i].typ)
    case _ => true
  }

  /** An underlying type is no name, a type of the universe scope is an interface, only structs are
      marked, a name for a pointer type has no methods, and one for an interface has the interface's. */
  predicate ValidDecl(env: Env, id: TypeId) {
    && ValidType(Under(env, id)) && !Under(env, id).Named?
    && (id.pkg == "" ==> Under(env, id).Interface?)
    && (id in env.marked ==> Under(env, id).Struct?)
    && (Under(env, id).Pointer? ==> !Resettable(env, id))
    && (Under(env, id).Interface? ==> (Resettable(env, id) <==> HasReset(Under(env, id).methods)))
  }

  ghost predicate ValidEnv(env: Env) {
    (forall id :: id in env.decls ==> ValidDecl(env, id)) && env.marked <= env.decls.Keys
  }
}

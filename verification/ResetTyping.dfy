/** What Go's type checker says of the statements that the generator emits. */
module ResetTyping {
  import opened GoTypes
  import opened Optional
  import opened ResetGen

  // An untyped constant zero becomes a value of any numeric type.
  predicate Converts(rhs: Expr, kind: Kind) {
    match kind
    case StringKind => rhs.EmptyString?
    case BoolKind => rhs.FalseLit?
    case _ => rhs.IntZero? || rhs.FloatZero? || rhs.ImagZero?
  }

  /** The generator has a value for exactly the basic types but byte and rune, and one that Go assigns. */
  lemma BasicZeroExactly(name: string)
    ensures BasicZero(name).Some? <==> Settable(name)
    ensures BasicZero(name).Some? ==> Converts(BasicZero(name).value, KindOf(name).value)
  {
  }

  // What a bare type name stands for in a package: its own declarations hide the universe scope.
  function Lookup(env: Env, pkg: string, name: string): GoType {
    if TypeId(pkg, name) in env.decls then Named(TypeId(pkg, name))
    else if TypeId("", name) in env.decls then Named(TypeId("", name))
    else if KindOf(name).Some? then Basic(name)
    else Other("undefined")
  }

  /** The name, in a file of package `pkg` with these imports, means the declared type `id`. */
  predicate Denotes(env: Env, imports: set<string>, pkg: string, name: TypeName, id: TypeId) {
    match name
    case Local(n) => Lookup(env, pkg, n) == Named(id)
    case Imported(_, p, n) =>
      && id.name == n && id.pkg in imports && PackageName(env, id.pkg) == p
      && (forall other :: other in imports && PackageName(env, other) == p ==> other == id.pkg)
      && id in env.decls && env.decls[id].exported
  }

  // Whether x = rhs is accepted for a variable x of type t.
  predicate Assignable(env: Env, imports: set<string>, pkg: string, t: GoType, rhs: Expr) {
    var core := Core(env, t);
    match rhs
    case SliceToZero(_) => core.Slice?
    case Nil => core.Interface?
    case ArrayLit(len, elem) => core.Array? && core.len == len && core.elem == Lookup(env, pkg, elem)
    case StructLit(name) => t.Named? && core.Struct? && Denotes(env, imports, pkg, name, t.id)
    case _ => core.Basic? && KindOf(core.name).Some? && Converts(rhs, KindOf(core.name).value)
  }

  // The type of x.field for x of type t. Selecting goes through one pointer.
  function Selected(env: Env, t: GoType, field: string): Option<GoType> {
    var struct := Core(env, if Core(env, t).Pointer? then Core(env, t).elem else t);
    if struct.Struct? && field != "_" then FieldType(struct.fields, field) else None
  }

  // The type of r.f.g... for a receiver r that points to a value of type `base`.
  function TypeOf(env: Env, base: GoType, path: seq<string>): Option<GoType>
    decreases |path|
  {
    if path == [] then Some(base)
    else
      match TypeOf(env, base, path[..|path| - 1])
      case None => None
      case Some(t) => Selected(env, t, path[|path| - 1])
  }

  function ExprType(env: Env, base: GoType, e: Expr): Option<GoType> {
    match e
    case Sel(path) => TypeOf(env, base, path)
    case Star(Sel(path)) =>
      (match TypeOf(env, base, path)
       case None => None
       case Some(t) => if Core(env, t).Pointer? then Some(Core(env, t).elem) else None)
    case _ => None
  }

  // x.Reset() for a variable x of type t: a pointer type has its target's methods, a name for one has none.
  predicate Callable(env: Env, t: GoType) {
    if t.Pointer? then HasMethod(env, t.elem) && !Core(env, t.elem).Pointer? && !Core(env, t.elem).Interface?
    else HasMethod(env, t) && !Core(env, t).Pointer?
  }

  predicate Accepts(env: Env, imports: set<string>, pkg: string, base: GoType, s: Stmt) {
    match s
    case ReturnIfNil => true
    case Assign(lhs, rhs) =>
      && ExprType(env, base, lhs).Some? && Assignable(env, imports, pkg, ExprType(env, base, lhs).value, rhs)
      && (rhs.SliceToZero? ==>
            ExprType(env, base, rhs.of).Some? && Core(env, ExprType(env, base, rhs.of).value).Slice?)
    case Clear(arg) =>
      ExprType(env, base, arg).Some?
      && (Core(env, ExprType(env, base, arg).value).Map? || Core(env, ExprType(env, base, arg).value).Slice?)
    case IfNotNil(cond, body) =>
      && ExprType(env, base, cond).Some?
      && (Core(env, ExprType(env, base, cond).value).Pointer? || Core(env, ExprType(env, base, cond).value).Interface?)
      && AcceptsAll(env, imports, pkg, base, body)
    case CallReset(receiver) =>
      ExprType(env, base, receiver).Some? && Callable(env, ExprType(env, base, receiver).value)
  }

  predicate AcceptsAll(env: Env, imports: set<string>, pkg: string, base: GoType, stmts: seq<Stmt>) {
    forall i :: 0 <= i < |stmts| ==> Accepts(env, imports, pkg, base, stmts[i])
  }
}

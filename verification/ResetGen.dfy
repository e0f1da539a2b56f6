/** The Reset generator: from the type of a field to the statements that reset it. */
module ResetGen {
  import opened GoTypes
  import opened Optional

  // An imported name is written package.name; `path` is the import that it takes.
  datatype TypeName = Local(name: string) | Imported(path: string, package: string, name: string)

  datatype Expr =
    | Sel(path: seq<string>)                       // r.f or r.f.g
    | Star(of: Expr)
    | EmptyString
    | FalseLit
    | IntZero
    | FloatZero
    | ImagZero
    | Nil
    | SliceToZero(of: Expr)                        // x[:0]
    | ArrayLit(len: nat, elem: string)             // [n]T{}
    | StructLit(typeName: TypeName)                // T{}

  datatype Stmt =
    | ReturnIfNil                                  // if r == nil { return }
    | Assign(lhs: Expr, rhs: Expr)
    | Clear(arg: Expr)
    | IfNotNil(cond: Expr, body: seq<Stmt>)
    | CallReset(receiver: Expr)

  // An overflow ends the whole process; no caller catches it.
  datatype Error =
    | UnknownBasic
    | UnknownElement
    | InterfacePointer
    | UnknownType
    | NotExportedFields
    | StackOverflow

  datatype Result = Emit(stmts: seq<Stmt>) | Fail(error: Error)

  // What a call returns, and the paths it added to the shared import map (also when it fails).
  datatype Output = Output(result: Result, imports: set<string>)

  function BasicZero(name: string): Option<Expr> {
    if name == "string" then Some(EmptyString)
    else if name == "bool" then Some(FalseLit)
    else if name in ["int", "int8", "int16", "int32", "int64",
                     "uint", "uint8", "uint16", "uint32", "uint64", "uintptr"] then Some(IntZero)
    else if name in ["float32", "float64"] then Some(FloatZero)
    else if name in ["complex64", "complex128"] then Some(ImagZero)
    else None
  }

  function Target(sel: seq<string>, pointer: bool): Expr {
    if pointer then Star(Sel(sel)) else Sel(sel)
  }

  function ElemName(elem: GoType): Option<string> {
    match elem
    case Basic(name) => Some(name)
    case Named(id) => Some(id.name)
    case _ => None
  }

  // The empty package path stands for Go's universe scope.
  predicate Foreign(pkg: string, id: TypeId) {
    id.pkg != "" && id.pkg != pkg
  }

  function PackageName(env: Env, path: string): string {
    if path in env.packageNames then env.packageNames[path] else path
  }

  function NameOf(env: Env, pkg: string, id: TypeId): TypeName {
    if Foreign(pkg, id) then Imported(id.pkg, PackageName(env, id.pkg), id.name) else Local(id.name)
  }

  /** resetStatement for the selector r.sel, generating into package `pkg`, with room on the stack for
      d more declared names. Types without names get smaller; through a name the recursion may come back. */
  function ResetStatement(
    d: nat, env: Env, pkg: string, sel: seq<string>, t: GoType, pointer: bool, hasReset: bool): Output
    decreases d, t
  {
    match t
    case Basic(name) =>
      (match BasicZero(name)
       case Some(zero) => Output(Emit([Assign(Target(sel, pointer), zero)]), {})
       case None => Output(Fail(UnknownBasic), {}))
    case Slice(_) =>
      Output(Emit([Assign(Target(sel, pointer), SliceToZero(Target(sel, pointer)))]), {})
    case Array(len, elem) =>
      (match ElemName(elem)
       case Some(name) => Output(Emit([Assign(Target(sel, pointer), ArrayLit(len, name))]), {})
       case None => Output(Fail(UnknownElement), {}))
    case Map(_, _) =>
      Output(Emit([Clear(Target(sel, pointer))]), {})
    case Named(id) =>
      if d == 0 then Output(Fail(StackOverflow), {}) else
      var out := ResetStatement(d - 1, env, pkg, sel, Under(env, id), pointer, hasReset || Resettable(env, id));
      if out.result == Fail(NotExportedFields) then
        Output(Emit([Assign(Target(sel, pointer), StructLit(NameOf(env, pkg, id)))]),
               out.imports + if Foreign(pkg, id) then {id.pkg} else {})
      else out
    case Pointer(elem) =>
      var out := ResetStatement(d, env, pkg, sel, elem, true, hasReset);
      if out.result.Emit? && out.result.stmts != [] then
        out.(result := Emit([IfNotNil(Sel(sel), out.result.stmts)]))
      else out
    case Struct(fields, methods) =>
      if hasReset || HasReset(methods) then Output(Emit([CallReset(Sel(sel))]), {})
      else if pointer then ResetFields(d, env, pkg, sel, fields)
      else Output(Emit([]), {})
    case Interface(methods) =>
      if pointer then Output(Fail(InterfacePointer), {})
      else if hasReset || HasReset(methods) then
        Output(Emit([IfNotNil(Sel(sel), [CallReset(Sel(sel))])]), {})
      else Output(Emit([Assign(Sel(sel), Nil)]), {})
    case Other(_) => Output(Fail(UnknownType), {})
  }

  // The loop over the fields of a pointee; an unexported field ends it with ErrNotExportedFields.
  function ResetFields(d: nat, env: Env, pkg: string, sel: seq<string>, fields: seq<Field>): Output
    decreases d, fields
  {
    if fields == [] then Output(Emit([]), {})
    else if !fields[0].exported then Output(Fail(NotExportedFields), {})
    else
      var first := ResetStatement(d, env, pkg, sel + [fields[0].name], fields[0].typ, false, false);
      if first.result.Fail? then first
      else
        var rest := ResetFields(d, env, pkg, sel, fields[1..]);
        Output(if rest.result.Fail? then rest.result else Emit(first.result.stmts + rest.result.stmts),
               first.imports + rest.imports)
  }
}

/** generateResetFunc and generateResetFile: the loops over fields and structs and the shared import map. */
module ResetFiles {
  import opened GoTypes
  import opened ResetGen
  import opened ResetMachine

  // A line of a struct declaration: the declared names (none for an embedded field) and their type.
  datatype FieldGroup = FieldGroup(names: seq<string>, typ: GoType)

  datatype TypeSpec = TypeSpec(id: TypeId, groups: seq<FieldGroup>)

  datatype Func = Func(receiver: TypeId, body: seq<Stmt>)

  datatype FuncResult = GotFunc(func: Func) | NoFunc(error: Error)

  datatype FileResult = GotFile(imports: set<string>, funcs: seq<Func>) | NoFile(error: Error)

  // The map shared by all calls of one generateResetFile.
  class ImportMap {
    var paths: set<string>

    constructor ()
      ensures paths == {}
    {
      paths := {};
    }
  }

  function Spread(names: seq<string>, typ: GoType): seq<(string, GoType)> {
    if names == [] then [] else [(names[0], typ)] + Spread(names[1..], typ)
  }

  function Flatten(groups: seq<FieldGroup>): seq<(string, GoType)> {
    if groups == [] then [] else Spread(groups[0].names, groups[0].typ) + Flatten(groups[1..])
  }

  function Declared(fields: seq<Field>): seq<(string, GoType)> {
    if fields == [] then [] else [(fields[0].name, fields[0].typ)] + Declared(fields[1..])
  }

  /** go/types gives the declared struct the fields that its syntax lists. */
  ghost predicate Checked(env: Env, spec: TypeSpec) {
    Under(env, spec.id).Struct? && Declared(OwnFields(Under(env, spec.id).fields)) == Flatten(spec.groups)
  }

  // `out` after the statements and imports that are there already.
  function Join(stmts: seq<Stmt>, imports: set<string>, out: Output): Output {
    Output(if out.result.Fail? then out.result else Emit(stmts + out.result.stmts), imports + out.imports)
  }

  lemma SpreadCons(names: seq<string>, typ: GoType, rest: seq<(string, GoType)>)
    requires names != []
    ensures Spread(names, typ) + rest == [(names[0], typ)] + (Spread(names[1..], typ) + rest)
  {
  }

  lemma JoinStep(stmts: seq<Stmt>, imports: set<string>, first: Output, rest: Output)
    requires first.result.Emit?
    ensures Join(stmts, imports, Join(first.result.stmts, first.imports, rest))
         == Join(stmts + first.result.stmts, imports + first.imports, rest)
  {
    assert imports + (first.imports + rest.imports) == imports + first.imports + rest.imports;
    if rest.result.Emit? {
      assert stmts + (first.result.stmts + rest.result.stmts) == stmts + first.result.stmts + rest.result.stmts;
    }
  }

  /** With `tail` still to come, the statements and imports so far continue to the struct's whole body. */
  ghost predicate Continues(env: Env, id: TypeId, tail: seq<(string, GoType)>, body: seq<Stmt>, added: set<string>)
    requires Under(env, id).Struct?
  {
    exists fields :: Declared(fields) == tail
      && Join(body, added, BodyOf(env, id.pkg, fields)) == BodyOf(env, id.pkg, OwnFields(Under(env, id).fields))
  }

  lemma NoneDone(env: Env, id: TypeId)
    requires Under(env, id).Struct?
    ensures Continues(env, id, Declared(OwnFields(Under(env, id).fields)), [], {})
  {
    var fields := OwnFields(Under(env, id).fields);
    var all := BodyOf(env, id.pkg, fields);
    assert {} + all.imports == all.imports;
    if all.result.Emit? { assert [] + all.result.stmts == all.result.stmts; }
  }

  lemma OneDone(env: Env, id: TypeId, name: string, typ: GoType, tail: seq<(string, GoType)>,
                body: seq<Stmt>, added: set<string>)
    requires Under(env, id).Struct? && Continues(env, id, [(name, typ)] + tail, body, added)
    ensures var out := ResetStatement(env.stack, env, id.pkg, [name], typ, false, false);
            if out.result.Fail? then
              MethodOf(env, id).result == out.result && MethodOf(env, id).imports == added + out.imports
            else Continues(env, id, tail, body + out.result.stmts, added + out.imports)
  {
    var fields :| Declared(fields) == [(name, typ)] + tail
      && Join(body, added, BodyOf(env, id.pkg, fields)) == BodyOf(env, id.pkg, OwnFields(Under(env, id).fields));
    assert Declared(fields)[0] == (name, typ);
    assert Declared(fields[1..]) == Declared(fields)[1..] == tail;
    var out := ResetStatement(env.stack, env, id.pkg, [name], typ, false, false);
    if out.result.Emit? { JoinStep(body, added, out, BodyOf(env, id.pkg, fields[1..])); }
  }

  lemma AllDone(env: Env, id: TypeId, body: seq<Stmt>, added: set<string>)
    requires Under(env, id).Struct? && Continues(env, id, [], body, added)
    ensures MethodOf(env, id) == Output(Emit([ReturnIfNil] + body), added)
  {
    assert body + [] == body && added + {} == added;
  }

  /** The body is the nil check and then the statements of each named field in order; an error of any
      field is returned. The shared imports grow by what the fields add, also on an error. */
  method GenerateResetFunc(env: Env, spec: TypeSpec, imports: ImportMap) returns (result: FuncResult)
    requires Checked(env, spec)
    modifies imports
    ensures imports.paths == old(imports.paths) + MethodOf(env, spec.id).imports
    ensures match MethodOf(env, spec.id).result
            case Emit(stmts) => result == GotFunc(Func(spec.id, stmts))
            case Fail(error) => result == NoFunc(error)
  {
    ghost var added := {};
    var body: seq<Stmt> := [];
    var i := 0;
    NoneDone(env, spec.id);
    while i < |spec.groups|
      invariant i <= |spec.groups|
      invariant Continues(env, spec.id, Flatten(spec.groups[i..]), body, added)
      invariant imports.paths == old(imports.paths) + added
    {
      var group := spec.groups[i];
      ghost var later := Flatten(spec.groups[i + 1..]);
      assert spec.groups[i..][1..] == spec.groups[i + 1..];
      var j := 0;
      while j < |group.names|
        invariant j <= |group.names|
        invariant Continues(env, spec.id, Spread(group.names[j..], group.typ) + later, body, added)
        invariant imports.paths == old(imports.paths) + added
      {
        assert group.names[j..][1..] == group.names[j + 1..];
        SpreadCons(group.names[j..], group.typ, later);
        OneDone(env, spec.id, group.names[j], group.typ, Spread(group.names[j + 1..], group.typ) + later, body, added);
        var out := ResetStatement(env.stack, env, spec.id.pkg, [group.names[j]], group.typ, false, false);
        imports.paths := imports.paths + out.imports;
        if out.result.Fail? {
          result := NoFunc(out.result.error);
          return;
        }
        body := body + out.result.stmts;
        added := added + out.imports;
        j := j + 1;
      }
      assert Spread(group.names[j..], group.typ) + later == later;
      i := i + 1;
    }
    AllDone(env, spec.id, body, added);
    result := GotFunc(Func(spec.id, [ReturnIfNil] + body));
  }

  // What generateResetFile makes of the structs of a package, one after the other.
  function FileOf(env: Env, specs: seq<TypeSpec>): FileResult
  {
    if specs == [] then GotFile({}, [])
    else
      match MethodOf(env, specs[0].id).result
      case Fail(error) => NoFile(error)
      case Emit(stmts) =>
        match FileOf(env, specs[1..])
        case NoFile(error) => NoFile(error)
        case GotFile(imports, funcs) =>
          GotFile(MethodOf(env, specs[0].id).imports + imports, [Func(specs[0].id, stmts)] + funcs)
  }

  function JoinFile(imports: set<string>, funcs: seq<Func>, file: FileResult): FileResult {
    if file.NoFile? then file else GotFile(imports + file.imports, funcs + file.funcs)
  }

  // The invariant of the loop over the structs, and what one more struct does to it.
  lemma FileStep(env: Env, specs: seq<TypeSpec>, i: nat, imports: set<string>, funcs: seq<Func>)
    requires i < |specs| && JoinFile(imports, funcs, FileOf(env, specs[i..])) == FileOf(env, specs)
    ensures match MethodOf(env, specs[i].id).result
            case Fail(error) => FileOf(env, specs) == NoFile(error)
            case Emit(stmts) =>
              JoinFile(imports + MethodOf(env, specs[i].id).imports, funcs + [Func(specs[i].id, stmts)],
                       FileOf(env, specs[i + 1..]))
              == FileOf(env, specs)
  {
    assert specs[i..][0] == specs[i] && specs[i..][1..] == specs[i + 1..];
    var rest := FileOf(env, specs[i + 1..]);
    var out := MethodOf(env, specs[i].id);
    if out.result.Emit? && rest.GotFile? {
      var f := Func(specs[i].id, out.result.stmts);
      assert imports + (out.imports + rest.imports) == imports + out.imports + rest.imports;
      assert funcs + ([f] + rest.funcs) == funcs + [f] + rest.funcs;
    }
  }

  method GenerateResetFile(env: Env, specs: seq<TypeSpec>) returns (result: FileResult)
    requires forall spec :: spec in specs ==> Checked(env, spec)
    ensures result == FileOf(env, specs)
  {
    var imports := new ImportMap();
    var funcs: seq<Func> := [];
    var i := 0;
    while i < |specs|
      invariant i <= |specs|
      invariant JoinFile(imports.paths, funcs, FileOf(env, specs[i..])) == FileOf(env, specs)
      invariant fresh(imports)
    {
      FileStep(env, specs, i, imports.paths, funcs);
      var fn := GenerateResetFunc(env, specs[i], imports);
      if fn.NoFunc? {
        result := NoFile(fn.error);
        return;
      }
      funcs := funcs + [fn.func];
      i := i + 1;
    }
    result := GotFile(imports.paths, funcs);
  }

  // ---- Import soundness ----

  function TypeNames(stmts: seq<Stmt>): set<TypeName> {
    if stmts == [] then {} else StmtTypeNames(stmts[0]) + TypeNames(stmts[1..])
  }

  function StmtTypeNames(s: Stmt): set<TypeName> {
    match s
    case Assign(_, StructLit(name)) => {name}
    case IfNotNil(_, body) => TypeNames(body)
    case _ => {}
  }

  // Every qualified name comes with the import of its own package, and is qualified by that package's name.
  predicate Imports(env: Env, names: set<TypeName>, paths: set<string>) {
    forall n :: n in names && n.Imported? ==> n.path in paths && PackageName(env, n.path) == n.package
  }

  lemma {:induction false} TypeNamesConcat(a: seq<Stmt>, b: seq<Stmt>)
    ensures TypeNames(a + b) == TypeNames(a) + TypeNames(b)
  {
    if a == [] { assert a + b == b; } else {
      assert (a + b)[1..] == a[1..] + b;
      TypeNamesConcat(a[1..], b);
    }
  }

  lemma TypeNamesSingle(s: Stmt)
    ensures TypeNames([s]) == StmtTypeNames(s)
  {
    assert [s][1..] == [];
  }

  lemma {:induction false} StatementImports(d: nat, env: Env, pkg: string, sel: seq<string>, t: GoType,
                                            pointer: bool, hasReset: bool)
    requires ResetStatement(d, env, pkg, sel, t, pointer, hasReset).result.Emit?
    ensures var out := ResetStatement(d, env, pkg, sel, t, pointer, hasReset);
            Imports(env, TypeNames(out.result.stmts), out.imports)
    decreases d, t
  {
    var out := ResetStatement(d, env, pkg, sel, t, pointer, hasReset);
    match t
    case Named(id) =>
      var reset := hasReset || Resettable(env, id);
      if ResetStatement(d - 1, env, pkg, sel, Under(env, id), pointer, reset).result.Emit? {
        StatementImports(d - 1, env, pkg, sel, Under(env, id), pointer, reset);
      } else {
        TypeNamesSingle(out.result.stmts[0]);
      }
    case Pointer(elem) =>
      StatementImports(d, env, pkg, sel, elem, true, hasReset);
      TypeNamesSingle(IfNotNil(Sel(sel), ResetStatement(d, env, pkg, sel, elem, true, hasReset).result.stmts));
    case Struct(fields, methods) =>
      TypeNamesSingle(CallReset(Sel(sel)));
      if !(hasReset || HasReset(methods) || !pointer) { FieldsImports(d, env, pkg, sel, fields); }
    case Other(_) =>
    case _ =>
      TypeNamesSingle(CallReset(Sel(sel)));
      TypeNamesSingle(out.result.stmts[0]);
  }

  lemma {:induction false} FieldsImports(d: nat, env: Env, pkg: string, sel: seq<string>, fields: seq<Field>)
    requires ResetFields(d, env, pkg, sel, fields).result.Emit?
    ensures var out := ResetFields(d, env, pkg, sel, fields);
            Imports(env, TypeNames(out.result.stmts), out.imports)
    decreases d, fields
  {
    if fields != [] {
      StatementImports(d, env, pkg, sel + [fields[0].name], fields[0].typ, false, false);
      FieldsImports(d, env, pkg, sel, fields[1..]);
      TypeNamesConcat(ResetStatement(d, env, pkg, sel + [fields[0].name], fields[0].typ, false, false).result.stmts,
                      ResetFields(d, env, pkg, sel, fields[1..]).result.stmts);
    }
  }

  lemma {:induction false} BodyImports(env: Env, pkg: string, fields: seq<Field>)
    requires BodyOf(env, pkg, fields).result.Emit?
    ensures var out := BodyOf(env, pkg, fields);
            Imports(env, TypeNames(out.result.stmts), out.imports)
  {
    if fields != [] {
      StatementImports(env.stack, env, pkg, [fields[0].name], fields[0].typ, false, false);
      BodyImports(env, pkg, fields[1..]);
      TypeNamesConcat(ResetStatement(env.stack, env, pkg, [fields[0].name], fields[0].typ, false, false).result.stmts,
                      BodyOf(env, pkg, fields[1..]).result.stmts);
    }
  }

  /** In a generated file every method is the one of its struct, and every package qualifier written in
      it has its package among the file's imports. */
  lemma {:induction false} FileImports(env: Env, specs: seq<TypeSpec>, i: nat)
    requires FileOf(env, specs).GotFile? && i < |specs|
    requires forall spec :: spec in specs ==> Checked(env, spec)
    ensures var file := FileOf(env, specs);
            && |file.funcs| == |specs|
            && file.funcs[i].receiver == specs[i].id && MethodOf(env, specs[i].id).result == Emit(file.funcs[i].body)
            && MethodOf(env, specs[i].id).imports <= file.imports
            && Imports(env, TypeNames(file.funcs[i].body), file.imports)
  {
    var file := FileOf(env, specs);
    if i == 0 {
      var id := specs[0].id;
      assert Checked(env, specs[0]);
      BodyImports(env, id.pkg, OwnFields(Under(env, id).fields));
      assert file.funcs[0].body[1..] == BodyOf(env, id.pkg, OwnFields(Under(env, id).fields)).result.stmts;
      if |specs| > 1 { FileImports(env, specs[1..], 0); }
    } else {
      FileImports(env, specs[1..], i - 1);
    }
  }
}

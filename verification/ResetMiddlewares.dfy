/** The generator on the repository's own structs. */
module ResetMiddlewares {
  import opened GoTypes
  import opened Optional
  import opened ResetAccepted
  import opened ResetGen
  import opened ResetMachine
  import opened ResetTyping

  // ---- The structs of internal/middlewares ----

  const MIDDLEWARES := "github.com/max-marek-projects/shortener/internal/middlewares"

  const WRITER := TypeId(MIDDLEWARES, "compressWriter")
  const READER := TypeId(MIDDLEWARES, "compressReader")
  const RESPONSE_DATA := TypeId(MIDDLEWARES, "responseData")
  const RESPONSE_WRITER := TypeId("net/http", "ResponseWriter")
  const READ_CLOSER := TypeId("io", "ReadCloser")
  const GZIP_WRITER := TypeId("compress/gzip", "Writer")
  const GZIP_READER := TypeId("compress/gzip", "Reader")
  const GZIP_HEADER := TypeId("compress/gzip", "Header")

  // gzip.Writer and gzip.Reader, as they are written in the generated file.
  const GZIP_WRITER_NAME := Imported("compress/gzip", "gzip", "Writer")
  const GZIP_READER_NAME := Imported("compress/gzip", "gzip", "Reader")

  const WRITER_FIELDS := [Plain("w", false, Named(RESPONSE_WRITER)), Plain("zw", false, Pointer(Named(GZIP_WRITER))),
                          Plain("compressed", false, Basic("bool")), Plain("wroteHeader", false, Basic("bool"))]

  const READER_FIELDS := [Plain("r", false, Named(READ_CLOSER)), Plain("zr", false, Pointer(Named(GZIP_READER)))]

  const RESPONSE_DATA_FIELDS := [Plain("status", false, Basic("int")), Plain("size", false, Basic("int"))]

  // A struct of compress/gzip: an embedded header, and a field that is not exported. Its Reset method has a
  // parameter, which does not count.
  function GzipDecl(hidden: string): Decl {
    Decl(Struct([Field("Header", true, true, Named(GZIP_HEADER)), Plain(hidden, false, Basic("int"))], NO_METHODS),
         MethodSets([], [Method("Reset", 1, None)]), true)
  }

  function MiddlewaresEnv(stack: nat): Env {
    Env(map[
          WRITER := Decl(Struct(WRITER_FIELDS, NO_METHODS), NO_METHODS, false),
          READER := Decl(Struct(READER_FIELDS, NO_METHODS), NO_METHODS, false),
          RESPONSE_DATA := Decl(Struct(RESPONSE_DATA_FIELDS, NO_METHODS), NO_METHODS, false),
          RESPONSE_WRITER := Decl(Interface(NO_METHODS), NO_METHODS, true),
          READ_CLOSER := Decl(Interface(NO_METHODS), NO_METHODS, true),
          GZIP_WRITER := GzipDecl("level"),
          GZIP_READER := GzipDecl("multistream"),
          GZIP_HEADER := Decl(Struct([Plain("Name", true, Basic("string"))], NO_METHODS), NO_METHODS, true)],
        map["compress/gzip" := "gzip"],
        {WRITER, READER, RESPONSE_DATA},
        stack)
  }

  // What the generator sees of these structs, in any program that declares them.
  predicate Middlewares(env: Env) {
    && env.stack >= 2
    && Under(env, WRITER) == Struct(WRITER_FIELDS, NO_METHODS)
    && Under(env, READER) == Struct(READER_FIELDS, NO_METHODS)
    && Under(env, RESPONSE_DATA) == Struct(RESPONSE_DATA_FIELDS, NO_METHODS)
    && PlainInterface(env, RESPONSE_WRITER) && PlainInterface(env, READ_CLOSER)
    && HeaderThenHidden(env, GZIP_WRITER) && HeaderThenHidden(env, GZIP_READER)
    && PackageName(env, "compress/gzip") == "gzip"
  }

  // They are declared in the program, and the types of compress/gzip can be named.
  predicate AllDeclared(env: Env) {
    && {WRITER, READER, RESPONSE_DATA, GZIP_WRITER, GZIP_READER} <= env.decls.Keys
    && env.decls[GZIP_WRITER].exported && env.decls[GZIP_READER].exported
  }

  predicate PlainInterface(env: Env, id: TypeId) {
    Under(env, id) == Interface(NO_METHODS) && !Resettable(env, id)
  }

  // An exported struct held by value comes first, then a field that is not exported.
  predicate HeaderThenHidden(env: Env, id: TypeId) {
    && Under(env, id).Struct? && !HasReset(Under(env, id).methods) && !Resettable(env, id)
    && |Under(env, id).fields| > 1
    && Under(env, id).fields[0].exported && Under(env, id).fields[0].typ == Named(GZIP_HEADER)
    && !Under(env, id).fields[1].exported
    && Under(env, GZIP_HEADER).Struct? && !HasReset(Under(env, GZIP_HEADER).methods) && !Resettable(env, GZIP_HEADER)
  }

  // A pointer to a gzip.Writer or gzip.Reader: its target is replaced by a zero value.
  lemma {:induction false} GzipPointer(d: nat, env: Env, field: string, id: TypeId)
    requires d >= 2 && HeaderThenHidden(env, id) && Foreign(MIDDLEWARES, id)
    ensures ResetStatement(d, env, MIDDLEWARES, [field], Pointer(Named(id)), false, false)
         == Output(
              Emit([IfNotNil(Sel([field]), [Assign(Star(Sel([field])), StructLit(NameOf(env, MIDDLEWARES, id)))])]),
              {id.pkg})
  {
    var fields, pkg := Under(env, id).fields, MIDDLEWARES;
    var sel := [field] + [fields[0].name];
    assert ResetStatement(d - 2, env, pkg, sel, Under(env, GZIP_HEADER), false, false) == Output(Emit([]), {});
    assert ResetStatement(d - 1, env, pkg, sel, Named(GZIP_HEADER), false, false) == Output(Emit([]), {});
    assert ResetFields(d - 1, env, pkg, [field], fields[1..]) == Output(Fail(NotExportedFields), {});
    assert ResetFields(d - 1, env, pkg, [field], fields) == Output(Fail(NotExportedFields), {});
    assert ResetStatement(d - 1, env, pkg, [field], Under(env, id), true, false) == Output(Fail(NotExportedFields), {});
    assert ResetStatement(d, env, pkg, [field], Named(id), true, false)
        == Output(Emit([Assign(Star(Sel([field])), StructLit(NameOf(env, pkg, id)))]), {id.pkg});
  }

  lemma BoolField(d: nat, env: Env, field: string)
    ensures ResetStatement(d, env, MIDDLEWARES, [field], Basic("bool"), false, false)
         == Output(Emit([Assign(Sel([field]), FalseLit)]), {})
  {
    assert BasicZero("bool") == Some(FalseLit);
  }

  lemma IntField(d: nat, env: Env, field: string)
    ensures ResetStatement(d, env, MIDDLEWARES, [field], Basic("int"), false, false)
         == Output(Emit([Assign(Sel([field]), IntZero)]), {})
  {
    assert BasicZero("int") == Some(IntZero);
  }

  lemma InterfaceField(d: nat, env: Env, field: string, id: TypeId)
    requires d > 0 && PlainInterface(env, id)
    ensures ResetStatement(d, env, MIDDLEWARES, [field], Named(id), false, false)
         == Output(Emit([Assign(Sel([field]), Nil)]), {})
  {
    assert ResetStatement(d - 1, env, MIDDLEWARES, [field], Under(env, id), false, false)
        == Output(Emit([Assign(Sel([field]), Nil)]), {});
  }

  lemma {:induction false} BodyCons(env: Env, pkg: string, f: Field, rest: seq<Field>, first: Stmt, others: seq<Stmt>,
                                    imports: set<string>)
    requires !f.embedded
    requires ResetStatement(env.stack, env, pkg, [f.name], f.typ, false, false).result == Emit([first])
    requires BodyOf(env, pkg, OwnFields(rest)).result == Emit(others)
    requires imports == ResetStatement(env.stack, env, pkg, [f.name], f.typ, false, false).imports
                      + BodyOf(env, pkg, OwnFields(rest)).imports
    ensures BodyOf(env, pkg, OwnFields([f] + rest)) == Output(Emit([first] + others), imports)
  {
    assert ([f] + rest)[1..] == rest;
    assert ([f] + OwnFields(rest))[1..] == OwnFields(rest);
  }

  // The methods of the committed reset.gen.go.
  const WRITER_RESET := [
    ReturnIfNil,
    Assign(Sel(["w"]), Nil),
    IfNotNil(Sel(["zw"]), [Assign(Star(Sel(["zw"])), StructLit(GZIP_WRITER_NAME))]),
    Assign(Sel(["compressed"]), FalseLit),
    Assign(Sel(["wroteHeader"]), FalseLit)]

  const READER_RESET := [
    ReturnIfNil,
    Assign(Sel(["r"]), Nil),
    IfNotNil(Sel(["zr"]), [Assign(Star(Sel(["zr"])), StructLit(GZIP_READER_NAME))])]

  const RESPONSE_DATA_RESET := [
    ReturnIfNil,
    Assign(Sel(["status"]), IntZero),
    Assign(Sel(["size"]), IntZero)]

  /** The generator's methods for the marked structs are those of the committed reset.gen.go. */
  lemma {:induction false} MiddlewaresResets(env: Env)
    requires Middlewares(env)
    ensures MethodOf(env, WRITER) == Output(Emit(WRITER_RESET), {"compress/gzip"})
    ensures MethodOf(env, READER) == Output(Emit(READER_RESET), {"compress/gzip"})
    ensures MethodOf(env, RESPONSE_DATA) == Output(Emit(RESPONSE_DATA_RESET), {})
  {
    WriterResets(env);
    ReaderResets(env);
    ResponseDataResets(env);
  }

  lemma {:induction false} WriterResets(env: Env)
    requires Middlewares(env)
    ensures MethodOf(env, WRITER) == Output(Emit(WRITER_RESET), {"compress/gzip"})
  {
    GzipPointer(env.stack, env, "zw", GZIP_WRITER);
    BoolField(env.stack, env, "compressed");
    BoolField(env.stack, env, "wroteHeader");
    InterfaceField(env.stack, env, "w", RESPONSE_WRITER);
    var s, f := WRITER_RESET, WRITER_FIELDS;
    BodyCons(env, MIDDLEWARES, f[3], [], s[4], [], {});
    BodyCons(env, MIDDLEWARES, f[2], [f[3]] + [], s[3], [s[4]] + [], {});
    BodyCons(env, MIDDLEWARES, f[1], [f[2]] + ([f[3]] + []), s[2], [s[3]] + ([s[4]] + []), {"compress/gzip"});
    BodyCons(env, MIDDLEWARES, f[0], [f[1]] + ([f[2]] + ([f[3]] + [])),
             s[1], [s[2]] + ([s[3]] + ([s[4]] + [])), {"compress/gzip"});
    assert f == [f[0]] + ([f[1]] + ([f[2]] + ([f[3]] + [])));
    assert s == [ReturnIfNil] + ([s[1]] + ([s[2]] + ([s[3]] + ([s[4]] + []))));
  }

  lemma {:induction false} ReaderResets(env: Env)
    requires Middlewares(env)
    ensures MethodOf(env, READER) == Output(Emit(READER_RESET), {"compress/gzip"})
  {
    GzipPointer(env.stack, env, "zr", GZIP_READER);
    InterfaceField(env.stack, env, "r", READ_CLOSER);
    var s, f := READER_RESET, READER_FIELDS;
    BodyCons(env, MIDDLEWARES, f[1], [], s[2], [], {"compress/gzip"});
    BodyCons(env, MIDDLEWARES, f[0], [f[1]] + [], s[1], [s[2]] + [], {"compress/gzip"});
    assert f == [f[0]] + ([f[1]] + []);
    assert s == [ReturnIfNil] + ([s[1]] + ([s[2]] + []));
  }

  lemma {:induction false} ResponseDataResets(env: Env)
    requires Middlewares(env)
    ensures MethodOf(env, RESPONSE_DATA) == Output(Emit(RESPONSE_DATA_RESET), {})
  {
    IntField(env.stack, env, "status");
    IntField(env.stack, env, "size");
    var s, f := RESPONSE_DATA_RESET, RESPONSE_DATA_FIELDS;
    BodyCons(env, MIDDLEWARES, f[1], [], s[2], [], {});
    BodyCons(env, MIDDLEWARES, f[0], [f[1]] + [], s[1], [s[2]] + [], {});
    assert f == [f[0]] + ([f[1]] + []);
    assert s == [ReturnIfNil] + ([s[1]] + ([s[2]] + []));
  }

  lemma {:induction false} GzipPointerFits(d: nat, env: Env, imports: set<string>, id: TypeId)
    requires d >= 2 && HeaderThenHidden(env, id) && Foreign(MIDDLEWARES, id)
    requires Denotes(env, imports, MIDDLEWARES, NameOf(env, MIDDLEWARES, id), id)
    ensures Fits(d, env, imports, MIDDLEWARES, Pointer(Named(id)), false, false, false)
  {
    var fields := Under(env, id).fields;
    assert HidesField(fields[1..]);
    assert Hides(Under(env, id), true, false);
  }

  lemma {:induction false} InterfaceFits(d: nat, env: Env, imports: set<string>, id: TypeId)
    requires d > 0 && PlainInterface(env, id)
    ensures Fits(d, env, imports, MIDDLEWARES, Named(id), false, false, false)
  {
    assert !Hides(Under(env, id), false, false);
  }

  // Fields declared with names, whose types fit.
  predicate OwnFit(env: Env, imports: set<string>, fields: seq<Field>) {
    OwnFields(fields) == fields && FitsFields(env.stack, env, imports, MIDDLEWARES, fields)
  }

  lemma {:induction false} FitCons(env: Env, imports: set<string>, f: Field, rest: seq<Field>)
    requires !f.embedded && f.name != "_" && Fits(env.stack, env, imports, MIDDLEWARES, f.typ, false, false, false)
    requires OwnFit(env, imports, rest)
    ensures OwnFit(env, imports, [f] + rest)
  {
    assert ([f] + rest)[1..] == rest;
  }

  predicate Accepted(env: Env, imports: set<string>, id: TypeId) {
    MethodOf(env, id).result.Emit? && AcceptsAll(env, imports, id.pkg, Named(id), MethodOf(env, id).result.stmts)
  }

  /** Go accepts the three methods, in a file that imports compress/gzip alone. */
  lemma {:induction false} MiddlewaresAccepted(env: Env)
    requires ValidEnv(env) && Middlewares(env) && AllDeclared(env)
    ensures Accepted(env, {"compress/gzip"}, WRITER)
    ensures Accepted(env, {"compress/gzip"}, READER)
    ensures Accepted(env, {"compress/gzip"}, RESPONSE_DATA)
  {
    WriterAccepted(env);
    ReaderAccepted(env);
    ResponseDataAccepted(env);
  }

  lemma {:induction false} WriterAccepted(env: Env)
    requires ValidEnv(env) && Middlewares(env) && {WRITER, GZIP_WRITER} <= env.decls.Keys
    requires env.decls[GZIP_WRITER].exported
    ensures Accepted(env, {"compress/gzip"}, WRITER)
  {
    WriterResets(env);
    WriterFits(env, {"compress/gzip"});
    FieldsAccepted(env, {"compress/gzip"}, WRITER, WRITER_FIELDS);
  }

  lemma {:induction false} ReaderAccepted(env: Env)
    requires ValidEnv(env) && Middlewares(env) && {READER, GZIP_READER} <= env.decls.Keys
    requires env.decls[GZIP_READER].exported
    ensures Accepted(env, {"compress/gzip"}, READER)
  {
    ReaderResets(env);
    ReaderFits(env, {"compress/gzip"});
    FieldsAccepted(env, {"compress/gzip"}, READER, READER_FIELDS);
  }

  lemma {:induction false} ResponseDataAccepted(env: Env)
    requires ValidEnv(env) && Middlewares(env) && RESPONSE_DATA in env.decls
    ensures Accepted(env, {"compress/gzip"}, RESPONSE_DATA)
  {
    ResponseDataResets(env);
    ResponseDataFits(env, {"compress/gzip"});
    FieldsAccepted(env, {"compress/gzip"}, RESPONSE_DATA, RESPONSE_DATA_FIELDS);
  }

  lemma {:induction false} WriterFits(env: Env, imports: set<string>)
    requires Middlewares(env) && imports == {"compress/gzip"}
    requires GZIP_WRITER in env.decls && env.decls[GZIP_WRITER].exported
    ensures OwnFit(env, imports, WRITER_FIELDS)
  {
    GzipPointerFits(env.stack, env, imports, GZIP_WRITER);
    InterfaceFits(env.stack, env, imports, RESPONSE_WRITER);
    var f := WRITER_FIELDS;
    FitCons(env, imports, f[3], []);
    FitCons(env, imports, f[2], [f[3]] + []);
    FitCons(env, imports, f[1], [f[2]] + ([f[3]] + []));
    FitCons(env, imports, f[0], [f[1]] + ([f[2]] + ([f[3]] + [])));
    assert f == [f[0]] + ([f[1]] + ([f[2]] + ([f[3]] + [])));
  }

  lemma {:induction false} ReaderFits(env: Env, imports: set<string>)
    requires Middlewares(env) && imports == {"compress/gzip"}
    requires GZIP_READER in env.decls && env.decls[GZIP_READER].exported
    ensures OwnFit(env, imports, READER_FIELDS)
  {
    GzipPointerFits(env.stack, env, imports, GZIP_READER);
    InterfaceFits(env.stack, env, imports, READ_CLOSER);
    var f := READER_FIELDS;
    FitCons(env, imports, f[1], []);
    FitCons(env, imports, f[0], [f[1]] + []);
    assert f == [f[0]] + ([f[1]] + []);
  }

  lemma {:induction false} ResponseDataFits(env: Env, imports: set<string>)
    ensures OwnFit(env, imports, RESPONSE_DATA_FIELDS)
  {
    var f := RESPONSE_DATA_FIELDS;
    FitCons(env, imports, f[1], []);
    FitCons(env, imports, f[0], [f[1]] + []);
    assert f == [f[0]] + ([f[1]] + []);
  }

  lemma {:induction false} FieldsAccepted(env: Env, imports: set<string>, id: TypeId, fields: seq<Field>)
    requires ValidEnv(env) && id in env.decls && id.pkg == MIDDLEWARES && Under(env, id) == Struct(fields, NO_METHODS)
    requires MethodOf(env, id).result.Emit?
    requires OwnFit(env, imports, fields)
    ensures Accepted(env, imports, id)
  {
    MethodAcceptedExactly(env, imports, id);
  }

  /** There are programs with these structs. */
  lemma {:induction false} MiddlewaresExist(stack: nat)
    requires stack >= 2
    ensures Middlewares(MiddlewaresEnv(stack)) && ValidEnv(MiddlewaresEnv(stack)) && AllDeclared(MiddlewaresEnv(stack))
  {
    var env := MiddlewaresEnv(stack);
    MiddlewaresHold(stack);
    forall id | id in env.decls ensures ValidDecl(env, id) {
      MiddlewaresDecl(stack, id);
    }
  }

  lemma {:induction false} MiddlewaresHold(stack: nat)
    requires stack >= 2
    ensures Middlewares(MiddlewaresEnv(stack))
  {
    NoResets();
    GzipHeld(stack, GZIP_WRITER);
    GzipHeld(stack, GZIP_READER);
  }

  lemma {:induction false} GzipHeld(stack: nat, id: TypeId)
    requires id == GZIP_WRITER || id == GZIP_READER
    ensures HeaderThenHidden(MiddlewaresEnv(stack), id)
  {
    NoResets();
  }

  lemma {:induction false} NoResets()
    ensures !HasReset(NO_METHODS) && !HasReset(GzipDecl("level").methods) && !HasReset(GzipDecl("multistream").methods)
  {
    var ms := [Method("Reset", 1, None)];
    assert [] + ms == ms && FirstReset(ms[1..]) == None;
  }

  lemma {:induction false} MiddlewaresDecl(stack: nat, id: TypeId)
    requires id in MiddlewaresEnv(stack).decls
    ensures ValidDecl(MiddlewaresEnv(stack), id)
  {
    NoResets();
    DistinctNames();
    assert "Header" != "level" && "Header" != "multistream";
  }

  lemma {:induction false} DistinctNames()
    ensures ValidType(Struct(WRITER_FIELDS, NO_METHODS)) && ValidType(Struct(READER_FIELDS, NO_METHODS))
    ensures ValidType(Struct(RESPONSE_DATA_FIELDS, NO_METHODS))
  {
    assert "w" != "zw" && "w" != "compressed" && "w" != "wroteHeader" && "zw" != "compressed" && "zw" != "wroteHeader";
    assert "compressed" != "wroteHeader" && "r" != "zr" && "status" != "size";
  }
}

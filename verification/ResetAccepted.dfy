/** Exactly which types the generator's output type-checks for. */
module ResetAccepted {
  import opened GoTypes
  import opened Optional
  import opened ResetGen
  import opened ResetMachine
  import opened ResetTyping

  // ---- The condition ----

  /** Nothing is emitted for this type: it holds only structs that are left alone and pointers to structs of
      such fields. */
  predicate Silent(d: nat, env: Env, t: GoType, pointer: bool, hasReset: bool)
    decreases d, t
  {
    match t
    case Named(id) =>
      var reset := hasReset || Resettable(env, id);
      d > 0 && !Hides(Under(env, id), pointer, reset) && Silent(d - 1, env, Under(env, id), pointer, reset)
    case Pointer(elem) => Silent(d, env, elem, true, hasReset)
    case Struct(fields, methods) =>
      !hasReset && !HasReset(methods) && (pointer ==> SilentFields(d, env, fields))
    case _ => false
  }

  predicate SilentFields(d: nat, env: Env, fields: seq<Field>)
    decreases d, fields
  {
    fields == [] || (Silent(d, env, fields[0].typ, false, false) && SilentFields(d, env, fields[1..]))
  }

  /** A declared struct whose own Reset, with parameters, hides the one promoted from an embedded field. The
      generator looks at the struct behind the name, which still has it. */
  predicate Shadowed(env: Env, id: TypeId, hasReset: bool) {
    Under(env, id).Struct? && HasReset(Under(env, id).methods) && !hasReset
  }

  /** The shapes whose statements Go accepts. An array's element type is written without its package. A
      declared name that stands for hidden fields is written as a composite literal, which must name a struct.
      Behind a pointer to a pointer nothing may be emitted. A name for a pointer type (`defined`) has no
      methods to call, nor has a name that shadows them. */
  predicate Fits(d: nat, env: Env, imports: set<string>, pkg: string, t: GoType,
                 pointer: bool, hasReset: bool, defined: bool)
    decreases d, t
  {
    match t
    case Array(_, elem) => ElemName(elem).Some? && Lookup(env, pkg, ElemName(elem).value) == elem
    case Named(id) =>
      var reset := hasReset || Resettable(env, id);
      d > 0 && !Shadowed(env, id, reset)
      && if Hides(Under(env, id), pointer, reset) then
           Under(env, id).Struct? && Denotes(env, imports, pkg, NameOf(env, pkg, id), id)
         else Fits(d - 1, env, imports, pkg, Under(env, id), pointer, reset, defined || !pointer)
    case Pointer(elem) =>
      Fits(d, env, imports, pkg, elem, true, hasReset, defined) && (pointer ==> Silent(d, env, elem, true, hasReset))
    case Struct(fields, methods) =>
      if hasReset || HasReset(methods) then !(pointer && defined)
      else !pointer || FitsFields(d, env, imports, pkg, fields)
    case _ => true
  }

  // A blank field cannot be selected.
  predicate FitsFields(d: nat, env: Env, imports: set<string>, pkg: string, fields: seq<Field>)
    decreases d, fields
  {
    fields == []
    || ((if fields[0].name == "_" then Silent(d, env, fields[0].typ, false, false)
         else Fits(d, env, imports, pkg, fields[0].typ, false, false, false))
        && FitsFields(d, env, imports, pkg, fields[1..]))
  }

  // ---- What is emitted depends on the package and the selector only in names ----

  ghost predicate Alike(a: Result, b: Result) {
    if a.Fail? then b == a else b.Emit? && |b.stmts| == |a.stmts|
  }

  lemma {:induction false} SameVerdict(d: nat, env: Env, pkg: string, sel: seq<string>, pkg': string, sel': seq<string>,
                                       t: GoType, pointer: bool, hasReset: bool)
    ensures Alike(ResetStatement(d, env, pkg, sel, t, pointer, hasReset).result,
                  ResetStatement(d, env, pkg', sel', t, pointer, hasReset).result)
    decreases d, t
  {
    match t
    case Named(id) =>
      if d > 0 {
        SameVerdict(d - 1, env, pkg, sel, pkg', sel', Under(env, id), pointer, hasReset || Resettable(env, id));
      }
    case Pointer(elem) => SameVerdict(d, env, pkg, sel, pkg', sel', elem, true, hasReset);
    case Struct(fields, methods) => SameFieldsVerdict(d, env, pkg, sel, pkg', sel', fields);
    case _ =>
  }

  lemma {:induction false} SameFieldsVerdict(d: nat, env: Env, pkg: string, sel: seq<string>,
                                             pkg': string, sel': seq<string>, fields: seq<Field>)
    ensures Alike(ResetFields(d, env, pkg, sel, fields).result, ResetFields(d, env, pkg', sel', fields).result)
    decreases d, fields
  {
    if fields != [] {
      SameVerdict(d, env, pkg, sel + [fields[0].name], pkg', sel' + [fields[0].name], fields[0].typ, false, false);
      SameFieldsVerdict(d, env, pkg, sel, pkg', sel', fields[1..]);
    }
  }

  // ---- Hidden fields ----

  /** Generation succeeds only for types that hide no fields... */
  lemma {:induction false} EmitsNothingHidden(d: nat, env: Env, pkg: string, sel: seq<string>, t: GoType,
                                              pointer: bool, hasReset: bool)
    requires ResetStatement(d, env, pkg, sel, t, pointer, hasReset).result.Emit?
    ensures !Hides(t, pointer, hasReset)
    decreases t
  {
    match t
    case Pointer(elem) => EmitsNothingHidden(d, env, pkg, sel, elem, true, hasReset);
    case Struct(fields, methods) =>
      if pointer && !hasReset && !HasReset(methods) { FieldsNothingHidden(d, env, pkg, sel, fields); }
    case _ =>
  }

  lemma {:induction false} FieldsNothingHidden(d: nat, env: Env, pkg: string, sel: seq<string>, fields: seq<Field>)
    requires ResetFields(d, env, pkg, sel, fields).result.Emit?
    ensures !HidesField(fields)
    decreases fields
  {
    if fields != [] {
      EmitsNothingHidden(d, env, pkg, sel + [fields[0].name], fields[0].typ, false, false);
      FieldsNothingHidden(d, env, pkg, sel, fields[1..]);
    }
  }

  /** ...and ErrNotExportedFields comes only from types that do, without any declared name around the hidden
      field: it never leaves a call on a named type, however deep it arose. */
  lemma {:induction false} OnlyUnnamedPointeesFail(d: nat, env: Env, pkg: string, sel: seq<string>, t: GoType,
                                                   pointer: bool, hasReset: bool)
    requires ResetStatement(d, env, pkg, sel, t, pointer, hasReset).result == Fail(NotExportedFields)
    ensures Hides(t, pointer, hasReset) && (t.Pointer? || t.Struct?)
    decreases t
  {
    match t
    case Pointer(elem) => OnlyUnnamedPointeesFail(d, env, pkg, sel, elem, true, hasReset);
    case Struct(fields, methods) => OnlyHiddenFieldsFail(d, env, pkg, sel, fields);
    case _ =>
  }

  lemma {:induction false} OnlyHiddenFieldsFail(d: nat, env: Env, pkg: string, sel: seq<string>, fields: seq<Field>)
    requires ResetFields(d, env, pkg, sel, fields).result == Fail(NotExportedFields)
    ensures HidesField(fields)
    decreases fields
  {
    if fields[0].exported {
      if ResetStatement(d, env, pkg, sel + [fields[0].name], fields[0].typ, false, false).result.Fail? {
        OnlyUnnamedPointeesFail(d, env, pkg, sel + [fields[0].name], fields[0].typ, false, false);
      } else {
        OnlyHiddenFieldsFail(d, env, pkg, sel, fields[1..]);
      }
    }
  }

  // ---- What emits nothing ----

  /** Where generation succeeds, silent types are those for which nothing is emitted. */
  lemma {:induction false} SilentExactly(d: nat, env: Env, pkg: string, sel: seq<string>, t: GoType,
                                         pointer: bool, hasReset: bool)
    requires ResetStatement(d, env, pkg, sel, t, pointer, hasReset).result.Emit?
    ensures Silent(d, env, t, pointer, hasReset)
       <==> ResetStatement(d, env, pkg, sel, t, pointer, hasReset).result.stmts == []
    decreases d, t
  {
    match t
    case Named(id) =>
      var under, reset := Under(env, id), hasReset || Resettable(env, id);
      if Hides(under, pointer, reset) {
        if ResetStatement(d - 1, env, pkg, sel, under, pointer, reset).result.Emit? {
          EmitsNothingHidden(d - 1, env, pkg, sel, under, pointer, reset);
        }
      } else {
        NamedEmits(d, env, pkg, sel, id, pointer, hasReset);
        SilentExactly(d - 1, env, pkg, sel, under, pointer, reset);
      }
    case Pointer(elem) => SilentExactly(d, env, pkg, sel, elem, true, hasReset);
    case Struct(fields, methods) =>
      if !hasReset && !HasReset(methods) && pointer { SilentFieldsExactly(d, env, pkg, sel, fields); }
    case _ =>
  }

  lemma {:induction false} SilentFieldsExactly(d: nat, env: Env, pkg: string, sel: seq<string>, fields: seq<Field>)
    requires ResetFields(d, env, pkg, sel, fields).result.Emit?
    ensures SilentFields(d, env, fields) <==> ResetFields(d, env, pkg, sel, fields).result.stmts == []
    decreases d, fields
  {
    if fields != [] {
      SilentExactly(d, env, pkg, sel + [fields[0].name], fields[0].typ, false, false);
      SilentFieldsExactly(d, env, pkg, sel, fields[1..]);
    }
  }

  // A declared type is emitted as a literal if it hides fields, and otherwise like its underlying type.
  lemma {:induction false} NamedEmits(d: nat, env: Env, pkg: string, sel: seq<string>, id: TypeId,
                                      pointer: bool, hasReset: bool)
    requires ResetStatement(d, env, pkg, sel, Named(id), pointer, hasReset).result.Emit?
    ensures d > 0
    ensures var reset := hasReset || Resettable(env, id);
            var inner := ResetStatement(d - 1, env, pkg, sel, Under(env, id), pointer, reset).result;
            ResetStatement(d, env, pkg, sel, Named(id), pointer, hasReset).result
              == if Hides(Under(env, id), pointer, reset) then
                   Emit([Assign(Target(sel, pointer), StructLit(NameOf(env, pkg, id)))])
                 else inner
  {
    var under, reset := Under(env, id), hasReset || Resettable(env, id);
    var inner := ResetStatement(d - 1, env, pkg, sel, under, pointer, reset).result;
    if inner.Emit? {
      EmitsNothingHidden(d - 1, env, pkg, sel, under, pointer, reset);
    } else {
      OnlyUnnamedPointeesFail(d - 1, env, pkg, sel, under, pointer, reset);
    }
  }

  lemma {:induction false} SilentFits(d: nat, env: Env, imports: set<string>, pkg: string, t: GoType,
                                      pointer: bool, hasReset: bool, defined: bool)
    requires Silent(d, env, t, pointer, hasReset)
    ensures Fits(d, env, imports, pkg, t, pointer, hasReset, defined)
    decreases d, t
  {
    match t
    case Named(id) =>
      var reset := hasReset || Resettable(env, id);
      SilentFits(d - 1, env, imports, pkg, Under(env, id), pointer, reset, defined || !pointer);
    case Pointer(elem) => SilentFits(d, env, imports, pkg, elem, true, hasReset, defined);
    case Struct(fields, methods) => if pointer { SilentFieldsFit(d, env, imports, pkg, fields); }
    case _ =>
  }

  lemma {:induction false} SilentFieldsFit(d: nat, env: Env, imports: set<string>, pkg: string, fields: seq<Field>)
    requires SilentFields(d, env, fields)
    ensures FitsFields(d, env, imports, pkg, fields)
    decreases d, fields
  {
    if fields != [] {
      SilentFits(d, env, imports, pkg, fields[0].typ, false, false, false);
      SilentFieldsFit(d, env, imports, pkg, fields[1..]);
    }
  }

  // ---- What Go rejects ----

  lemma {:induction false} AcceptsConcat(env: Env, imports: set<string>, pkg: string, base: GoType, a: seq<Stmt>,
                                         b: seq<Stmt>)
    ensures AcceptsAll(env, imports, pkg, base, a + b)
       <==> AcceptsAll(env, imports, pkg, base, a) && AcceptsAll(env, imports, pkg, base, b)
  {
    if AcceptsAll(env, imports, pkg, base, a + b) {
      forall i | 0 <= i < |a| ensures Accepts(env, imports, pkg, base, a[i]) {
        assert (a + b)[i] == a[i];
      }
      forall i | 0 <= i < |b| ensures Accepts(env, imports, pkg, base, b[i]) {
        assert (a + b)[|a| + i] == b[i];
      }
    }
  }

  lemma NoFieldType(env: Env, base: GoType, sel: seq<string>, field: string)
    ensures TypeOf(env, base, sel + [field])
         == match TypeOf(env, base, sel) case None => None case Some(t) => Selected(env, t, field)
  {
    assert (sel + [field])[..|sel + [field]| - 1] == sel;
  }

  // Statements about a selector that denotes nothing, or that leads through two pointers.
  ghost predicate Misplaced(env: Env, base: GoType, sel: seq<string>, pointer: bool) {
    match TypeOf(env, base, sel)
    case None => true
    case Some(v) => pointer && Core(env, v).Pointer? && Core(env, Core(env, v).elem).Pointer?
  }

  lemma OneAccepted(env: Env, imports: set<string>, pkg: string, base: GoType, s: Stmt)
    ensures AcceptsAll(env, imports, pkg, base, [s]) <==> Accepts(env, imports, pkg, base, s)
  {
    assert [s][0] == s;
  }

  lemma MisplacedTarget(env: Env, imports: set<string>, pkg: string, base: GoType, sel: seq<string>, pointer: bool)
    requires Misplaced(env, base, sel, pointer)
    ensures forall rhs :: !Accepts(env, imports, pkg, base, Assign(Target(sel, pointer), rhs))
    ensures !Accepts(env, imports, pkg, base, Clear(Target(sel, pointer)))
    ensures !Accepts(env, imports, pkg, base, CallReset(Sel(sel)))
  {
  }

  /** Whatever is emitted there, Go rejects it. */
  lemma {:induction false} MisplacedRejected(d: nat, env: Env, imports: set<string>, pkg: string, base: GoType,
                                             sel: seq<string>, t: GoType, pointer: bool, hasReset: bool)
    requires Misplaced(env, base, sel, pointer)
    requires var result := ResetStatement(d, env, pkg, sel, t, pointer, hasReset).result;
             result.Emit? && result.stmts != []
    ensures !AcceptsAll(env, imports, pkg, base, ResetStatement(d, env, pkg, sel, t, pointer, hasReset).result.stmts)
    decreases d, t
  {
    var stmts := ResetStatement(d, env, pkg, sel, t, pointer, hasReset).result.stmts;
    MisplacedTarget(env, imports, pkg, base, sel, pointer);
    match t
    case Named(id) =>
      var reset := hasReset || Resettable(env, id);
      if ResetStatement(d - 1, env, pkg, sel, Under(env, id), pointer, reset).result.Emit? {
        MisplacedRejected(d - 1, env, imports, pkg, base, sel, Under(env, id), pointer, reset);
      } else {
        OneAccepted(env, imports, pkg, base, stmts[0]);
      }
    case Pointer(elem) =>
      MisplacedRejected(d, env, imports, pkg, base, sel, elem, true, hasReset);
      OneAccepted(env, imports, pkg, base, stmts[0]);
    case Struct(fields, methods) =>
      if hasReset || HasReset(methods) {
        OneAccepted(env, imports, pkg, base, stmts[0]);
      } else {
        MisplacedFieldsRejected(d, env, imports, pkg, base, sel, fields);
      }
    case Interface(methods) =>
      OneAccepted(env, imports, pkg, base, CallReset(Sel(sel)));
      OneAccepted(env, imports, pkg, base, stmts[0]);
    case Other(_) =>
    case _ => OneAccepted(env, imports, pkg, base, stmts[0]);
  }

  lemma {:induction false} MisplacedFieldsRejected(d: nat, env: Env, imports: set<string>, pkg: string, base: GoType,
                                                   sel: seq<string>, fields: seq<Field>)
    requires Misplaced(env, base, sel, true)
    requires var result := ResetFields(d, env, pkg, sel, fields).result; result.Emit? && result.stmts != []
    ensures !AcceptsAll(env, imports, pkg, base, ResetFields(d, env, pkg, sel, fields).result.stmts)
    decreases d, fields
  {
    var path := sel + [fields[0].name];
    var first := ResetStatement(d, env, pkg, path, fields[0].typ, false, false).result.stmts;
    var rest := ResetFields(d, env, pkg, sel, fields[1..]).result.stmts;
    AcceptsConcat(env, imports, pkg, base, first, rest);
    NoFieldType(env, base, sel, fields[0].name);
    if first != [] {
      MisplacedRejected(d, env, imports, pkg, base, path, fields[0].typ, false, false);
    } else {
      MisplacedFieldsRejected(d, env, imports, pkg, base, sel, fields[1..]);
    }
  }

  // ---- The equivalence ----

  // t is the type `full`, or what its name stands for.
  predicate Reading(env: Env, full: GoType, t: GoType, hasReset: bool) {
    if full == t then !hasReset
    else
      && full.Named? && t == Under(env, full.id) && !t.Named?
      && hasReset == Resettable(env, full.id) && !Shadowed(env, full.id, hasReset)
  }

  // A call of resetStatement for the variable r.sel, or for the one it points to.
  ghost predicate Placed(env: Env, base: GoType, sel: seq<string>, t: GoType, pointer: bool, hasReset: bool,
                         defined: bool)
  {
    match TypeOf(env, base, sel)
    case None => false
    case Some(v) =>
      ValidType(v)
      && if pointer then
           && Core(env, v).Pointer? && defined == v.Named?
           && Reading(env, Core(env, v).elem, t, hasReset) && !Core(env, Core(env, v).elem).Pointer?
         else Reading(env, v, t, hasReset) && (t.Pointer? ==> defined == v.Named?)
  }

  lemma {:induction false} FieldTypeAt(fields: seq<Field>, i: nat)
    requires i < |fields| && DistinctFields(fields) && fields[i].name != "_"
    ensures FieldType(fields, fields[i].name) == Some(fields[i].typ)
    decreases i
  {
    if i > 0 {
      FieldTypeAt(fields[1..], i - 1);
    }
  }

  lemma ValidCore(env: Env, t: GoType)
    requires ValidEnv(env) && ValidType(t)
    ensures ValidType(Core(env, t)) && !Core(env, t).Named?
  {
  }

  lemma PlacedTarget(env: Env, base: GoType, sel: seq<string>, t: GoType, pointer: bool, hasReset: bool, defined: bool)
    requires ValidEnv(env) && Placed(env, base, sel, t, pointer, hasReset, defined) && !t.Named?
    ensures var target := ExprType(env, base, Target(sel, pointer)); target.Some? && Core(env, target.value) == t
  {
  }

  predicate IsLeaf(t: GoType) {
    match t
    case Basic(name) => BasicZero(name).Some?
    case Array(_, elem) => ElemName(elem).Some?
    case _ => t.Slice? || t.Map?
  }

  // The one statement that is emitted for a type without parts.
  function LeafStatement(sel: seq<string>, t: GoType, pointer: bool): Stmt
    requires IsLeaf(t)
  {
    var lhs := Target(sel, pointer);
    match t
    case Basic(name) => Assign(lhs, BasicZero(name).value)
    case Slice(_) => Assign(lhs, SliceToZero(lhs))
    case Array(len, elem) => Assign(lhs, ArrayLit(len, ElemName(elem).value))
    case Map(_, _) => Clear(lhs)
  }

  lemma {:induction false} LeafEmits(d: nat, env: Env, pkg: string, sel: seq<string>, t: GoType, pointer: bool,
                                     hasReset: bool)
    requires !t.Named? && !t.Pointer? && !t.Struct? && !t.Interface?
    requires ResetStatement(d, env, pkg, sel, t, pointer, hasReset).result.Emit?
    ensures IsLeaf(t)
    ensures ResetStatement(d, env, pkg, sel, t, pointer, hasReset).result.stmts == [LeafStatement(sel, t, pointer)]
  {
  }

  lemma {:induction false} AcceptedLeaf(d: nat, env: Env, imports: set<string>, pkg: string, base: GoType,
                                        sel: seq<string>, t: GoType, pointer: bool, hasReset: bool, defined: bool)
    requires ValidEnv(env) && Placed(env, base, sel, t, pointer, hasReset, defined)
    requires !t.Named? && !t.Pointer? && !t.Struct? && !t.Interface?
    requires ResetStatement(d, env, pkg, sel, t, pointer, hasReset).result.Emit?
    ensures AcceptsAll(env, imports, pkg, base, ResetStatement(d, env, pkg, sel, t, pointer, hasReset).result.stmts)
       <==> Fits(d, env, imports, pkg, t, pointer, hasReset, defined)
  {
    LeafEmits(d, env, pkg, sel, t, pointer, hasReset);
    PlacedTarget(env, base, sel, t, pointer, hasReset, defined);
    LeafAccepted(env, imports, pkg, base, sel, t, pointer);
    OneAccepted(env, imports, pkg, base, LeafStatement(sel, t, pointer));
  }

  lemma {:induction false} LeafAccepted(env: Env, imports: set<string>, pkg: string, base: GoType, sel: seq<string>,
                                        t: GoType, pointer: bool)
    requires IsLeaf(t)
    requires var target := ExprType(env, base, Target(sel, pointer)); target.Some? && Core(env, target.value) == t
    ensures Accepts(env, imports, pkg, base, LeafStatement(sel, t, pointer))
       <==> (t.Array? ==> Lookup(env, pkg, ElemName(t.elem).value) == t.elem)
  {
    if t.Basic? { BasicZeroExactly(t.name); }
  }

  lemma {:induction false} AcceptedInterface(d: nat, env: Env, imports: set<string>, pkg: string, base: GoType,
                                             sel: seq<string>, t: GoType, hasReset: bool, defined: bool)
    requires ValidEnv(env) && Placed(env, base, sel, t, false, hasReset, defined) && t.Interface?
    ensures AcceptsAll(env, imports, pkg, base, ResetStatement(d, env, pkg, sel, t, false, hasReset).result.stmts)
  {
    var v := TypeOf(env, base, sel).value;
    assert Core(env, v) == t;
    OneAccepted(env, imports, pkg, base, CallReset(Sel(sel)));
    OneAccepted(env, imports, pkg, base, ResetStatement(d, env, pkg, sel, t, false, hasReset).result.stmts[0]);
  }

  lemma {:induction false} AcceptedCall(env: Env, imports: set<string>, pkg: string, base: GoType,
                                        sel: seq<string>, t: GoType, pointer: bool, hasReset: bool, defined: bool)
    requires ValidEnv(env) && Placed(env, base, sel, t, pointer, hasReset, defined)
    requires t.Struct? && (hasReset || HasReset(t.methods))
    ensures AcceptsAll(env, imports, pkg, base, [CallReset(Sel(sel))]) <==> !(pointer && defined)
  {
    var v := TypeOf(env, base, sel).value;
    OneAccepted(env, imports, pkg, base, CallReset(Sel(sel)));
    if pointer {
      assert HasMethod(env, Core(env, v).elem);
    } else {
      assert HasMethod(env, v) && !v.Pointer?;
    }
  }

  /** The statements that are emitted for a variable type-check if and only if its type fits. */
  lemma {:induction false} AcceptedExactly(d: nat, env: Env, imports: set<string>, pkg: string, base: GoType,
                                           sel: seq<string>, t: GoType, pointer: bool, hasReset: bool, defined: bool)
    requires ValidEnv(env) && Placed(env, base, sel, t, pointer, hasReset, defined)
    requires ResetStatement(d, env, pkg, sel, t, pointer, hasReset).result.Emit?
    ensures AcceptsAll(env, imports, pkg, base, ResetStatement(d, env, pkg, sel, t, pointer, hasReset).result.stmts)
       <==> Fits(d, env, imports, pkg, t, pointer, hasReset, defined)
    decreases d, t
  {
    match t
    case Named(id) => AcceptedNamed(d, env, imports, pkg, base, sel, id, pointer, hasReset, defined);
    case Pointer(elem) => AcceptedPointer(d, env, imports, pkg, base, sel, elem, hasReset, defined);
    case Struct(fields, methods) =>
      if hasReset || HasReset(methods) {
        AcceptedCall(env, imports, pkg, base, sel, t, pointer, hasReset, defined);
      } else if pointer {
        var v := TypeOf(env, base, sel).value;
        ValidCore(env, v);
        ValidCore(env, Core(env, v).elem);
        AcceptedFields(d, env, imports, pkg, base, sel, fields, fields, 0);
      }
    case Interface(_) => AcceptedInterface(d, env, imports, pkg, base, sel, t, hasReset, defined);
    case _ => AcceptedLeaf(d, env, imports, pkg, base, sel, t, pointer, hasReset, defined);
  }

  lemma PlacedUnder(env: Env, base: GoType, sel: seq<string>, id: TypeId, pointer: bool, hasReset: bool, defined: bool)
    requires ValidEnv(env) && Placed(env, base, sel, Named(id), pointer, hasReset, defined)
    ensures !hasReset
    ensures !Shadowed(env, id, Resettable(env, id)) ==>
              Placed(env, base, sel, Under(env, id), pointer, Resettable(env, id), defined || !pointer)
    ensures ExprType(env, base, Target(sel, pointer)) == Some(Named(id))
  {
    ValidCore(env, Named(id));
  }

  /** A promoted Reset that the declared type hides is called all the same, and Go rejects the call. */
  lemma {:induction false} ShadowedRejected(d: nat, env: Env, imports: set<string>, pkg: string, base: GoType,
                                            sel: seq<string>, id: TypeId, pointer: bool, hasReset: bool, defined: bool)
    requires ValidEnv(env) && Placed(env, base, sel, Named(id), pointer, hasReset, defined)
    requires Shadowed(env, id, Resettable(env, id)) && d > 0
    ensures var result := ResetStatement(d, env, pkg, sel, Named(id), pointer, hasReset).result;
            result == Emit([CallReset(Sel(sel))]) && !AcceptsAll(env, imports, pkg, base, result.stmts)
  {
    OneAccepted(env, imports, pkg, base, CallReset(Sel(sel)));
    assert ResetStatement(d - 1, env, pkg, sel, Under(env, id), pointer, false).result == Emit([CallReset(Sel(sel))]);
  }

  // A composite literal is accepted where its name denotes the struct type of the variable.
  lemma {:induction false} LiteralAccepted(env: Env, imports: set<string>, pkg: string, base: GoType,
                                           sel: seq<string>, id: TypeId, pointer: bool, hasReset: bool, defined: bool)
    requires ValidEnv(env) && Placed(env, base, sel, Named(id), pointer, hasReset, defined)
    ensures AcceptsAll(env, imports, pkg, base, [Assign(Target(sel, pointer), StructLit(NameOf(env, pkg, id)))])
       <==> Under(env, id).Struct? && Denotes(env, imports, pkg, NameOf(env, pkg, id), id)
  {
    PlacedUnder(env, base, sel, id, pointer, hasReset, defined);
    OneAccepted(env, imports, pkg, base, Assign(Target(sel, pointer), StructLit(NameOf(env, pkg, id))));
  }

  lemma {:induction false} AcceptedNamed(d: nat, env: Env, imports: set<string>, pkg: string, base: GoType,
                                         sel: seq<string>, id: TypeId, pointer: bool, hasReset: bool, defined: bool)
    requires ValidEnv(env) && Placed(env, base, sel, Named(id), pointer, hasReset, defined)
    requires ResetStatement(d, env, pkg, sel, Named(id), pointer, hasReset).result.Emit?
    ensures AcceptsAll(env, imports, pkg, base,
                       ResetStatement(d, env, pkg, sel, Named(id), pointer, hasReset).result.stmts)
       <==> Fits(d, env, imports, pkg, Named(id), pointer, hasReset, defined)
    decreases d, Named(id), 0
  {
    var under := Under(env, id);
    PlacedUnder(env, base, sel, id, pointer, hasReset, defined);
    NamedEmits(d, env, pkg, sel, id, pointer, hasReset);
    if Shadowed(env, id, Resettable(env, id)) {
      ShadowedRejected(d, env, imports, pkg, base, sel, id, pointer, hasReset, defined);
    } else if Hides(under, pointer, Resettable(env, id)) {
      LiteralAccepted(env, imports, pkg, base, sel, id, pointer, hasReset, defined);
    } else {
      AcceptedExactly(d - 1, env, imports, pkg, base, sel, under, pointer, Resettable(env, id), defined || !pointer);
    }
  }

  lemma {:induction false} AcceptedPointer(d: nat, env: Env, imports: set<string>, pkg: string, base: GoType,
                                           sel: seq<string>, elem: GoType, hasReset: bool, defined: bool)
    requires ValidEnv(env) && Placed(env, base, sel, Pointer(elem), false, hasReset, defined)
    requires ResetStatement(d, env, pkg, sel, Pointer(elem), false, hasReset).result.Emit?
    ensures AcceptsAll(env, imports, pkg, base,
                       ResetStatement(d, env, pkg, sel, Pointer(elem), false, hasReset).result.stmts)
       <==> Fits(d, env, imports, pkg, Pointer(elem), false, hasReset, defined)
    decreases d, Pointer(elem), 0
  {
    var v := TypeOf(env, base, sel).value;
    assert Core(env, v) == Pointer(elem) && !hasReset;
    var inner := ResetStatement(d, env, pkg, sel, elem, true, false).result.stmts;
    var stmts := ResetStatement(d, env, pkg, sel, Pointer(elem), false, hasReset).result.stmts;
    SilentExactly(d, env, pkg, sel, elem, true, false);
    if inner == [] {
      SilentFits(d, env, imports, pkg, elem, true, false, defined);
    } else {
      assert stmts == [IfNotNil(Sel(sel), inner)];
      GuardAccepted(env, imports, pkg, base, sel, inner);
      if Core(env, elem).Pointer? {
        MisplacedRejected(d, env, imports, pkg, base, sel, elem, true, false);
        DeepDoesNotFit(d, env, imports, pkg, elem, false, defined);
      } else {
        AcceptedExactly(d, env, imports, pkg, base, sel, elem, true, false, defined);
      }
    }
  }

  lemma GuardAccepted(env: Env, imports: set<string>, pkg: string, base: GoType, sel: seq<string>, body: seq<Stmt>)
    requires TypeOf(env, base, sel).Some? && Core(env, TypeOf(env, base, sel).value).Pointer?
    ensures AcceptsAll(env, imports, pkg, base, [IfNotNil(Sel(sel), body)])
       <==> AcceptsAll(env, imports, pkg, base, body)
  {
    OneAccepted(env, imports, pkg, base, IfNotNil(Sel(sel), body));
  }

  lemma {:induction false} DeepDoesNotFit(d: nat, env: Env, imports: set<string>, pkg: string, elem: GoType,
                                          hasReset: bool, defined: bool)
    requires Core(env, elem).Pointer? && !Silent(d, env, elem, true, hasReset)
    ensures !Fits(d, env, imports, pkg, elem, true, hasReset, defined)
  {
  }

  // What is emitted for a pointer: a nil check around the statements for its target, if there are any.
  lemma {:induction false} PointerEmits(d: nat, env: Env, pkg: string, sel: seq<string>, elem: GoType,
                                        stmts: seq<Stmt>) returns (inner: seq<Stmt>)
    requires ResetStatement(d, env, pkg, sel, Pointer(elem), false, false).result == Emit(stmts)
    ensures ResetStatement(d, env, pkg, sel, elem, true, false).result == Emit(inner)
    ensures stmts == if inner == [] then [] else [IfNotNil(Sel(sel), inner)]
  {
    inner := ResetStatement(d, env, pkg, sel, elem, true, false).result.stmts;
  }

  // Where a pointer to a pointer fits, nothing is emitted.
  lemma {:induction false} DeepEmitsNothing(d: nat, env: Env, imports: set<string>, pkg: string, sel: seq<string>,
                                            elem: GoType, defined: bool, stmts: seq<Stmt>)
    requires ResetStatement(d, env, pkg, sel, Pointer(elem), false, false).result == Emit(stmts)
    requires Core(env, elem).Pointer? && Fits(d, env, imports, pkg, Pointer(elem), false, false, defined)
    ensures stmts == []
  {
    var inner := PointerEmits(d, env, pkg, sel, elem, stmts);
    SilentExactly(d, env, pkg, sel, elem, true, false);
    if inner != [] { DeepDoesNotFit(d, env, imports, pkg, elem, false, defined); }
  }

  // Where a blank field fits, nothing is emitted for it.
  lemma {:induction false} BlankEmitsNothing(d: nat, env: Env, imports: set<string>, pkg: string, sel: seq<string>,
                                             fields: seq<Field>)
    requires fields != [] && fields[0].name == "_" && FitsFields(d, env, imports, pkg, fields)
    requires ResetStatement(d, env, pkg, sel, fields[0].typ, false, false).result.Emit?
    ensures ResetStatement(d, env, pkg, sel, fields[0].typ, false, false).result.stmts == []
  {
    SilentExactly(d, env, pkg, sel, fields[0].typ, false, false);
  }

  lemma {:induction false} AcceptedFields(d: nat, env: Env, imports: set<string>, pkg: string, base: GoType,
                                          sel: seq<string>, all: seq<Field>, fields: seq<Field>, i: nat)
    requires ValidEnv(env) && TypeOf(env, base, sel).Some?
    requires var v := Core(env, TypeOf(env, base, sel).value);
             && (v.Pointer? ==> Core(env, v.elem).Struct? && Core(env, v.elem).fields == all)
             && (!v.Pointer? ==> v.Struct? && v.fields == all)
    requires DistinctFields(all) && forall j :: 0 <= j < |all| ==> ValidType(all[j].typ)
    requires i <= |all| && fields == all[i..]
    requires ResetFields(d, env, pkg, sel, fields).result.Emit?
    ensures AcceptsAll(env, imports, pkg, base, ResetFields(d, env, pkg, sel, fields).result.stmts)
       <==> FitsFields(d, env, imports, pkg, fields)
    decreases d, fields, 0
  {
    if fields != [] {
      var f, path := fields[0], sel + [fields[0].name];
      assert f == all[i];
      var first := ResetStatement(d, env, pkg, path, f.typ, false, false).result.stmts;
      AcceptsConcat(env, imports, pkg, base, first, ResetFields(d, env, pkg, sel, fields[1..]).result.stmts);
      AcceptedFields(d, env, imports, pkg, base, sel, all, fields[1..], i + 1);
      NoFieldType(env, base, sel, f.name);
      if f.name == "_" {
        SilentExactly(d, env, pkg, path, f.typ, false, false);
        if first != [] { MisplacedRejected(d, env, imports, pkg, base, path, f.typ, false, false); }
      } else {
        FieldTypeAt(all, i);
        AcceptedExactly(d, env, imports, pkg, base, path, f.typ, false, false, false);
      }
    }
  }

  // ---- Types whose names decide ----

  const INTEGERS := ["int", "int8", "int16", "int32", "int64", "uint", "uint8", "uint16", "uint32", "uint64", "uintptr"]

  // The basic types, but for byte and rune.
  predicate PlainBasic(name: string) {
    || name == "string" || name == "bool" || name in INTEGERS
    || name == "float32" || name == "float64" || name == "complex64" || name == "complex128"
  }

  /** A basic type gets a statement if and only if it is one of these eighteen, and Go accepts the statement. */
  lemma {:induction false} BasicExactly(d: nat, env: Env, imports: set<string>, pkg: string, base: GoType,
                                        sel: seq<string>, name: string)
    requires ValidEnv(env) && TypeOf(env, base, sel) == Some(Basic(name))
    ensures var result := ResetStatement(d, env, pkg, sel, Basic(name), false, false).result;
            && (result.Emit? <==> PlainBasic(name))
            && (result.Fail? ==> result == Fail(UnknownBasic))
            && (result.Emit? ==> AcceptsAll(env, imports, pkg, base, result.stmts))
  {
    if BasicZero(name).Some? {
      AcceptedExactly(d, env, imports, pkg, base, sel, Basic(name), false, false, false);
    }
  }

  // The bare name of the element type means that type in this package: declared names hide the predeclared.
  ghost predicate MeansElement(env: Env, pkg: string, elem: GoType) {
    match elem
    case Basic(name) =>
      && (PlainBasic(name) || name == "byte" || name == "rune")
      && TypeId(pkg, name) !in env.decls && TypeId("", name) !in env.decls
    case Named(id) =>
      id in env.decls && (id.pkg == pkg || (id.pkg == "" && TypeId(pkg, id.name) !in env.decls))
    case _ => false
  }

  /** An array gets a statement if and only if its element type is basic or has a name, and Go accepts it if and
      only if the bare name means that type. */
  lemma {:induction false} ArrayExactly(d: nat, env: Env, imports: set<string>, pkg: string, base: GoType,
                                        sel: seq<string>, len: nat, elem: GoType)
    requires ValidEnv(env) && TypeOf(env, base, sel) == Some(Array(len, elem))
    ensures var result := ResetStatement(d, env, pkg, sel, Array(len, elem), false, false).result;
            && (result.Emit? <==> elem.Basic? || elem.Named?)
            && (result.Fail? ==> result == Fail(UnknownElement))
            && (result.Emit? ==> (AcceptsAll(env, imports, pkg, base, result.stmts) <==> MeansElement(env, pkg, elem)))
  {
    if ElemName(elem).Some? {
      AcceptedExactly(d, env, imports, pkg, base, sel, Array(len, elem), false, false, false);
    }
  }

  // A composite literal of this struct type can be written: by its bare name at home, qualified elsewhere.
  ghost predicate Writable(env: Env, imports: set<string>, pkg: string, id: TypeId) {
    && id in env.decls && Under(env, id).Struct?
    && (id.pkg == pkg
        || (&& id.pkg != "" && env.decls[id].exported && id.pkg in imports
            && forall other :: other in imports && PackageName(env, other) == PackageName(env, id.pkg) ==>
                 other == id.pkg))
  }

  /** A pointer to a struct without Reset but with a field that is not exported: its target is replaced by a
      composite literal, which Go accepts if and only if the type can be written there. */
  lemma {:induction false} HiddenExactly(d: nat, env: Env, imports: set<string>, pkg: string, base: GoType,
                                         sel: seq<string>, id: TypeId)
    requires ValidEnv(env) && TypeOf(env, base, sel) == Some(Pointer(Named(id)))
    requires Under(env, id).Struct? && !Resettable(env, id) && !HasReset(Under(env, id).methods)
    requires Under(env, id).fields != [] && !Under(env, id).fields[0].exported
    ensures var result := ResetStatement(d + 1, env, pkg, sel, Pointer(Named(id)), false, false).result;
            result.Emit? && (AcceptsAll(env, imports, pkg, base, result.stmts) <==> Writable(env, imports, pkg, id))
  {
    var fields := Under(env, id).fields;
    assert ResetFields(d, env, pkg, sel, fields).result == Fail(NotExportedFields) && HidesField(fields);
    assert ResetStatement(d, env, pkg, sel, Under(env, id), true, false).result == Fail(NotExportedFields);
    assert ResetStatement(d + 1, env, pkg, sel, Named(id), true, false).result
        == Emit([Assign(Star(Sel(sel)), StructLit(NameOf(env, pkg, id)))]);
    AcceptedExactly(d + 1, env, imports, pkg, base, sel, Pointer(Named(id)), false, false, false);
  }

  // ---- A whole method ----

  lemma OwnFieldsDistinct(fields: seq<Field>)
    requires DistinctFields(fields) && forall j :: 0 <= j < |fields| ==> ValidType(fields[j].typ)
    ensures forall f :: f in OwnFields(fields) && f.name != "_" ==>
              FieldType(fields, f.name) == Some(f.typ) && ValidType(f.typ)
  {
    forall f | f in OwnFields(fields) && f.name != "_"
      ensures FieldType(fields, f.name) == Some(f.typ) && ValidType(f.typ) {
      OwnFieldsAmong(fields, f);
      var j :| 0 <= j < |fields| && fields[j] == f;
      FieldTypeAt(fields, j);
    }
  }

  lemma {:induction false} AcceptedBody(env: Env, imports: set<string>, id: TypeId, fields: seq<Field>)
    requires ValidEnv(env) && Under(env, id).Struct? && BodyOf(env, id.pkg, fields).result.Emit?
    requires forall f :: f in fields && f.name != "_" ==>
               FieldType(Under(env, id).fields, f.name) == Some(f.typ) && ValidType(f.typ)
    ensures AcceptsAll(env, imports, id.pkg, Named(id), BodyOf(env, id.pkg, fields).result.stmts)
       <==> FitsFields(env.stack, env, imports, id.pkg, fields)
  {
    if fields != [] {
      var f, base := fields[0], Named(id);
      assert f in fields;
      var first := ResetStatement(env.stack, env, id.pkg, [f.name], f.typ, false, false).result.stmts;
      AcceptsConcat(env, imports, id.pkg, base, first, BodyOf(env, id.pkg, fields[1..]).result.stmts);
      AcceptedBody(env, imports, id, fields[1..]);
      NoFieldType(env, base, [], f.name);
      assert [] + [f.name] == [f.name];
      if f.name == "_" {
        SilentExactly(env.stack, env, id.pkg, [f.name], f.typ, false, false);
        if first != [] { MisplacedRejected(env.stack, env, imports, id.pkg, base, [f.name], f.typ, false, false); }
      } else {
        AcceptedExactly(env.stack, env, imports, id.pkg, base, [f.name], f.typ, false, false, false);
      }
    }
  }

  /** Go accepts a generated method if and only if the named fields of its struct fit. */
  lemma {:induction false} MethodAcceptedExactly(env: Env, imports: set<string>, id: TypeId)
    requires ValidEnv(env) && id in env.decls && Under(env, id).Struct? && MethodOf(env, id).result.Emit?
    ensures AcceptsAll(env, imports, id.pkg, Named(id), MethodOf(env, id).result.stmts)
       <==> FitsFields(env.stack, env, imports, id.pkg, OwnFields(Under(env, id).fields))
  {
    var fields := Under(env, id).fields;
    OwnFieldsDistinct(fields);
    AcceptedBody(env, imports, id, OwnFields(fields));
    AcceptsConcat(env, imports, id.pkg, Named(id), [ReturnIfNil], BodyOf(env, id.pkg, OwnFields(fields)).result.stmts);
  }
}

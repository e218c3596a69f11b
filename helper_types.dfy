/** The generator's type registry: every type the generated bindings know,
    its numeric id, and the rule that types with equal structure share one
    id (the later ones become aliases of the first). */
module HelperTypes {
  import opened Wrappers
  import opened HelperNames

  /** The first id handed to a type that is not builtin. */
  const FIRST_ID: nat := 1000

  // ---------------------------------------------------------------------
  // Type data

  datatype PepperType = PepperVar | PepperString | PepperArray | PepperArrayBuffer | PepperDictionary

  /** The structure of a type. Dafny's equality on this datatype is the
      equality the registry groups types by: a primitive compares its name,
      signedness, size and integer flag; a struct only its name (its size and
      fields are not part of the value); a pointer the structure of its base
      type; a function the structure of its result and argument types. */
  datatype TypeData =
    | VoidData
    | PrimData(jsIdent: string, isSigned: bool, size: nat, isInt: bool)
    | StructData(name: string)
    | PepperData(pepperType: PepperType)
    | PointerData(base: TypeData)
    | FunctionData(result: TypeData, args: seq<TypeData>)

  /** The C spelling of each primitive type name. */
  const TO_STR: map<string, string> := map[
    "char" := "char", "int8" := "int8_t", "uint8" := "uint8_t",
    "int16" := "int16_t", "uint16" := "uint16_t",
    "int32" := "int32_t", "uint32" := "uint32_t",
    "long" := "long", "ulong" := "unsigned long",
    "int64" := "int64_t", "uint64" := "uint64_t",
    "float32" := "float", "float64" := "double"]

  /** `'long' in s`. */
  predicate ContainsLong(s: string)
    decreases |s|
  {
    |s| >= 4 && (s[..4] == "long" || ContainsLong(s[1..]))
  }

  /** The printf conversion used to log a value of this type, if any. */
  function GetFormat(d: TypeData): (r: Option<string>)
    ensures r.Some? <==> d.PrimData? || d.PepperData? || d.PointerData?
  {
    match d
    case PrimData(jsIdent, isSigned, size, isInt) =>
      if isInt then
        if size <= 4 then
          if size == 4 && ContainsLong(jsIdent) then Some(if isSigned then "%ld" else "%lu")
          else Some(if isSigned then "%d" else "%u")
        else Some(if isSigned then "%lld" else "%llu")
      else Some("%g")
    case PepperData(_) => Some("%s")
    case PointerData(_) => Some("%p")
    case _ => None
  }

  /** The conversion C's printf prescribes for each C type the primitives
      are spelled as, on the 32-bit target the bindings are built for
      (`long` is 32 bits, `int64_t` is `long long`; a `char` or a short
      integer is promoted to `int`; a `float` to `double`). */
  function PrintfConversion(cType: string): Option<string>
  {
    if cType == "char" || cType == "int8_t" || cType == "int16_t" || cType == "int32_t" then Some("%d")
    else if cType == "uint8_t" || cType == "uint16_t" || cType == "uint32_t" then Some("%u")
    else if cType == "long" then Some("%ld")
    else if cType == "unsigned long" then Some("%lu")
    else if cType == "int64_t" then Some("%lld")
    else if cType == "uint64_t" then Some("%llu")
    else if cType == "float" || cType == "double" then Some("%g")
    else None
  }

  // ---------------------------------------------------------------------
  // Type descriptions, as the generator reads them

  /** The kind-specific part of a type description. */
  datatype TypeDictBody =
    | VoidDict
    | PrimDict(isSigned: Option<bool>, size: nat, isInt: bool)
    | StructDict(size: nat, fieldTypes: seq<string>)
    | PepperDict(pepperType: string)
    | PointerDict(base: string)
    | FunctionDict(result: string, args: seq<string>)
    | AliasDict(alias: string)
    | OtherKind(kind: string)

  datatype TypeDict = TypeDict(name: string, body: TypeDictBody)

  /** A function description: a name, a result and argument type names, and
      possibly a non-empty list of overloads that stand in its place. */
  datatype FnDict = FnDict(name: string, result: string, args: seq<string>, overloads: seq<FnDict>)

  /** The descriptions `AddFunctionDict` registers: the overloads when there
      are any, else the description itself. */
  function OverloadsOf(f: FnDict): (r: seq<FnDict>)
    ensures |r| > 0
    ensures f.overloads != [] ==> r == f.overloads
  {
    if f.overloads != [] then f.overloads else [f]
  }

  /** The type description of one function description. */
  function AsTypeDict(f: FnDict): TypeDict
  {
    TypeDict(f.name, FunctionDict(f.result, f.args))
  }

  function Prim(name: string, isSigned: Option<bool>, size: nat, isInt: bool): TypeDict
  {
    TypeDict(name, PrimDict(isSigned, size, isInt))
  }

  const BUILTIN_PRIMS: seq<TypeDict> := [
    Prim("char", Some(true), 1, true),
    Prim("int8", Some(true), 1, true),
    Prim("uint8", Some(false), 1, true),
    Prim("int16", Some(true), 2, true),
    Prim("uint16", Some(false), 2, true),
    Prim("int32", Some(true), 4, true),
    Prim("uint32", Some(false), 4, true),
    Prim("long", Some(true), 4, true),
    Prim("ulong", Some(false), 4, true),
    Prim("int64", Some(true), 8, true),
    Prim("uint64", Some(false), 8, true),
    Prim("float32", None, 4, false),
    Prim("float64", None, 8, false)]

  const BUILTIN_ALIASES: seq<TypeDict> := [
    TypeDict("uchar", AliasDict("uint8")),
    TypeDict("short", AliasDict("int16")),
    TypeDict("ushort", AliasDict("uint16")),
    TypeDict("int", AliasDict("int32")),
    TypeDict("uint", AliasDict("uint32")),
    TypeDict("longlong", AliasDict("int64")),
    TypeDict("ulonglong", AliasDict("uint64")),
    TypeDict("float", AliasDict("float32")),
    TypeDict("double", AliasDict("float64")),
    TypeDict("size_t", AliasDict("uint32")),
    TypeDict("ssize_t", AliasDict("int32")),
    TypeDict("off_t", AliasDict("int64"))]

  const BUILTIN_POINTERS: seq<TypeDict> := [
    TypeDict("void$", PointerDict("void")),
    TypeDict("char$", PointerDict("char")),
    TypeDict("int8$", PointerDict("int8")),
    TypeDict("uint8$", PointerDict("uint8")),
    TypeDict("int16$", PointerDict("int16")),
    TypeDict("uint16$", PointerDict("uint16")),
    TypeDict("int32$", PointerDict("int32")),
    TypeDict("uint32$", PointerDict("uint32")),
    TypeDict("long$", PointerDict("long")),
    TypeDict("ulong$", PointerDict("ulong")),
    TypeDict("int64$", PointerDict("int64")),
    TypeDict("uint64$", PointerDict("uint64")),
    TypeDict("float32$", PointerDict("float32")),
    TypeDict("float64$", PointerDict("float64")),
    TypeDict("void$$", PointerDict("void$"))]

  const BUILTIN_PEPPERS: seq<TypeDict> := [
    TypeDict("Var", PepperDict("Var")),
    TypeDict("ArrayBuffer", PepperDict("ArrayBuffer")),
    TypeDict("Array", PepperDict("Array")),
    TypeDict("Dictionary", PepperDict("Dictionary")),
    TypeDict("String", PepperDict("String"))]

  /** The builtin types, in the order they are registered. */
  const BUILTIN_TYPES: seq<TypeDict> :=
    [TypeDict("void", VoidDict)] + BUILTIN_PRIMS + BUILTIN_ALIASES + BUILTIN_POINTERS + BUILTIN_PEPPERS

  function PrimDataOf(name: string, isSigned: Option<bool>, size: nat, isInt: bool): TypeData
  {
    PrimData(name, if isSigned.Some? then isSigned.value else false, size, isInt)
  }

  /** A primitive description is logged with the conversion C prescribes
      for the C type it is spelled as. */
  predicate FormatAgrees(p: TypeDict)
  {
    p.body.PrimDict? && p.name in TO_STR &&
    GetFormat(PrimDataOf(p.name, p.body.isSigned, p.body.size, p.body.isInt)) == PrintfConversion(TO_STR[p.name])
  }

  /** Every builtin primitive is logged with the conversion C prescribes. */
  lemma BuiltinFormats(i: nat)
    requires i < |BUILTIN_PRIMS|
    ensures FormatAgrees(BUILTIN_PRIMS[i])
  {
    if i < 4 {
      BuiltinFormats1(i);
    } else if i < 7 {
      BuiltinFormats2(i);
    } else if i < 10 {
      BuiltinFormats3(i);
    } else {
      BuiltinFormats4(i);
    }
  }

  lemma BuiltinFormats1(i: nat)
    requires 0 <= i < 4 && i < |BUILTIN_PRIMS|
    ensures FormatAgrees(BUILTIN_PRIMS[i])
  {
    var p := BUILTIN_PRIMS[i];
    if i == 0 {
      assert p == Prim("char", Some(true), 1, true);
    } else if i == 1 {
      assert p == Prim("int8", Some(true), 1, true);
    } else if i == 2 {
      assert p == Prim("uint8", Some(false), 1, true);
    } else {
      assert p == Prim("int16", Some(true), 2, true);
    }
  }

  lemma BuiltinFormats2(i: nat)
    requires 4 <= i < 7 && i < |BUILTIN_PRIMS|
    ensures FormatAgrees(BUILTIN_PRIMS[i])
  {
    var p := BUILTIN_PRIMS[i];
    if i == 4 {
      assert p == Prim("uint16", Some(false), 2, true);
    } else if i == 5 {
      assert p == Prim("int32", Some(true), 4, true);
      NoLong("int32");
    } else {
      assert p == Prim("uint32", Some(false), 4, true);
      NoLong("uint32");
    }
  }

  lemma BuiltinFormats3(i: nat)
    requires 7 <= i < 10 && i < |BUILTIN_PRIMS|
    ensures FormatAgrees(BUILTIN_PRIMS[i])
  {
    var p := BUILTIN_PRIMS[i];
    if i == 7 {
      assert p == Prim("long", Some(true), 4, true);
      assert ContainsLong("long"[0..]);
    } else if i == 8 {
      assert p == Prim("ulong", Some(false), 4, true);
      assert ContainsLong("ulong"[1..]);
    } else {
      assert p == Prim("int64", Some(true), 8, true);
    }
  }

  lemma BuiltinFormats4(i: nat)
    requires 10 <= i < 13 && i < |BUILTIN_PRIMS|
    ensures FormatAgrees(BUILTIN_PRIMS[i])
  {
    var p := BUILTIN_PRIMS[i];
    if i == 10 {
      assert p == Prim("uint64", Some(false), 8, true);
    } else if i == 11 {
      assert p == Prim("float32", None, 4, false);
    } else {
      assert p == Prim("float64", None, 8, false);
    }
  }

  lemma NoLong(name: string)
    requires name == "int32" || name == "uint32"
    ensures !ContainsLong(name)
  {
    assert name[0] != 'l' && name[1] != 'l' && name[2] != 'l' && name[3] != 'l' && name[4] != 'l';
    assert name == "uint32" ==> name[5] != 'l';
    NoLetterL(name);
  }

  /** A string without an `l` does not contain "long". */
  lemma {:induction false} NoLetterL(s: string)
    requires forall i :: 0 <= i < |s| ==> s[i] != 'l'
    ensures !ContainsLong(s)
    decreases |s|
  {
    if |s| >= 4 {
      assert s[..4][0] == s[0];
      NoLetterL(s[1..]);
    }
  }

  // ---------------------------------------------------------------------
  // Types

  datatype TypeError =
    | KeyError(key: string)
    | UnknownPepperType(pepperType: string)
    | UnknownKind(kind: string)
    | DuplicateTypename(name: string)
    | NoSuchMethod(name: string)
    | NotTypeData

  /** A registered type. `aliasOf` names the type whose id and structure
      it shares. */
  datatype Type = Type(id: nat, jsIdent: string, cIdent: string, data: TypeData,
                       isBuiltin: bool, aliasOf: Option<string>)

  /** The types named by `names`, or the first name that is not known. */
  function LookupAll(names: seq<string>, known: map<string, Type>): (r: Result<seq<TypeData>, TypeError>)
    ensures r.Ok? <==> forall i :: 0 <= i < |names| ==> names[i] in known
    ensures r.Ok? ==> |r.value| == |names| && forall i :: 0 <= i < |names| ==> r.value[i] == known[names[i]].data
    ensures r.Err? ==> exists i :: 0 <= i < |names| && names[i] !in known && r.error == KeyError(names[i])
    decreases |names|
  {
    if names == [] then Ok([])
    else if names[0] !in known then Err(KeyError(names[0]))
    else match LookupAll(names[1..], known)
      case Err(e) => (assert forall i :: 0 < i < |names| ==> names[i] == names[1..][i - 1]; Err(e))
      case Ok(rest) => (assert forall i :: 0 < i < |names| ==> names[i] == names[1..][i - 1]; Ok([known[names[0]].data] + rest))
  }

  /** The structure of a function type: its result and argument types must
      all be known. */
  function FunctionTypeData(result: string, args: seq<string>, known: map<string, Type>): (r: Result<TypeData, TypeError>)
    ensures r.Ok? <==> result in known && forall i :: 0 <= i < |args| ==> args[i] in known
    ensures r.Ok? ==> r.value.FunctionData? && r.value.result == known[result].data
    ensures r.Ok? ==> |r.value.args| == |args| && forall i :: 0 <= i < |args| ==> r.value.args[i] == known[args[i]].data
  {
    if result !in known then Err(KeyError(result))
    else match LookupAll(args, known)
      case Err(e) => Err(e)
      case Ok(argData) => Ok(FunctionData(known[result].data, argData))
  }

  function PepperTypeOf(name: string): Option<PepperType>
  {
    if name == "Var" then Some(PepperVar)
    else if name == "String" then Some(PepperString)
    else if name == "Array" then Some(PepperArray)
    else if name == "ArrayBuffer" then Some(PepperArrayBuffer)
    else if name == "Dictionary" then Some(PepperDictionary)
    else None
  }

  /** The structure a description gives, for every kind but `function`;
      an alias has none of its own (`None`). */
  function NonFunctionTypeData(name: string, body: TypeDictBody, known: map<string, Type>): (r: Result<Option<TypeData>, TypeError>)
    requires !body.FunctionDict?
  {
    match body
    case VoidDict => Ok(Some(VoidData))
    case PrimDict(isSigned, size, isInt) =>
      if name in TO_STR then Ok(Some(PrimDataOf(name, isSigned, size, isInt))) else Err(KeyError(name))
    case StructDict(_, fieldTypes) =>
      (match LookupAll(fieldTypes, known)
       case Err(e) => Err(e)
       case Ok(_) => Ok(Some(StructData(name))))
    case PepperDict(p) =>
      if PepperTypeOf(p).Some? then Ok(Some(PepperData(PepperTypeOf(p).value))) else Err(UnknownPepperType(p))
    case PointerDict(base) =>
      if base in known then Ok(Some(PointerData(known[base].data))) else Err(KeyError(base))
    case AliasDict(_) => Ok(None)
    case OtherKind(kind) => Err(UnknownKind(kind))
  }

  /** The structure of a type description, as written: the `function` kind
      calls a method the builder does not have, so it always fails. */
  function TypeDictToTypeDataAsWritten(name: string, body: TypeDictBody, known: map<string, Type>): Result<Option<TypeData>, TypeError>
  {
    if body.FunctionDict? then Err(NoSuchMethod("FunctionDictToTypeData"))
    else NonFunctionTypeData(name, body, known)
  }

  /** The structure of a type description, with the `function` kind read
      as a function description, which the registry uses. */
  function TypeDictToTypeData(name: string, body: TypeDictBody, known: map<string, Type>): (r: Result<Option<TypeData>, TypeError>)
    ensures r.Ok? && r.value.None? <==> body.AliasDict?
    ensures !body.FunctionDict? ==> r == TypeDictToTypeDataAsWritten(name, body, known)
  {
    match body
    case FunctionDict(result, args) =>
      (match FunctionTypeData(result, args, known)
       case Err(e) => Err(e)
       case Ok(d) => Ok(Some(d)))
    case _ => NonFunctionTypeData(name, body, known)
  }

  /** A `function` type description fails as written whatever it names,
      while the corrected reading gives the function type whose result and
      arguments it names, the same structure a function description gives,
      so the type becomes an alias of an equal function type. */
  lemma FunctionKindFinding(name: string, result: string, args: seq<string>, known: map<string, Type>)
    ensures TypeDictToTypeDataAsWritten(name, FunctionDict(result, args), known).Err?
    ensures (result in known && forall i :: 0 <= i < |args| ==> args[i] in known) ==>
      TypeDictToTypeData(name, FunctionDict(result, args), known) == Ok(Some(FunctionTypeData(result, args, known).value))
  {
  }

  /** The concrete case: a callback type `void (*)(void)`, with `void`
      registered. */
  lemma FunctionKindExample()
    ensures var known := map["void" := Type(1, "void", "void", VoidData, true, None)];
      TypeDictToTypeDataAsWritten("callback", FunctionDict("void", []), known) == Err(NoSuchMethod("FunctionDictToTypeData")) &&
      TypeDictToTypeData("callback", FunctionDict("void", []), known) == Ok(Some(FunctionData(VoidData, [])))
  {
    var known := map["void" := Type(1, "void", "void", VoidData, true, None)];
    assert FunctionTypeData("void", [], known) == Ok(FunctionData(VoidData, []));
  }

  /** Every list of types with one structure is non-empty, and its types
      have that structure and share the first one's id, which is below the
      next id to be handed out. */
  ghost predicate GroupsAgree(byData: map<TypeData, seq<Type>>, nextId: int)
  {
    forall d :: d in byData ==>
      byData[d] != [] && forall t :: t in byData[d] ==> t.data == d && t.id == byData[d][0].id && t.id < nextId
  }

  /** Every named type is listed under its structure, with that list's id. */
  ghost predicate NamedListed(named: map<string, Type>, byData: map<TypeData, seq<Type>>)
  {
    forall n :: n in named ==>
      named[n].data in byData && byData[named[n].data] != [] && named[n].id == byData[named[n].data][0].id
  }

  /** Different structures have different ids. */
  ghost predicate IdsDistinct(byData: map<TypeData, seq<Type>>)
  {
    forall d1, d2 :: d1 in byData && d2 in byData && d1 != d2 && byData[d1] != [] && byData[d2] != [] ==>
      byData[d1][0].id != byData[d2][0].id
  }

  /** What the registry keeps between operations. */
  ghost predicate Registry(named: map<string, Type>, byData: map<TypeData, seq<Type>>, nextId: int)
  {
    GroupsAgree(byData, nextId) && NamedListed(named, byData) && IdsDistinct(byData)
  }

  /** Two registered types share an id exactly when they have equal
      structure. */
  lemma SameIdIffSameData(named: map<string, Type>, byData: map<TypeData, seq<Type>>, nextId: int,
                          d1: TypeData, t1: Type, d2: TypeData, t2: Type)
    requires Registry(named, byData, nextId)
    requires d1 in byData && t1 in byData[d1] && d2 in byData && t2 in byData[d2]
    ensures t1.id == t2.id <==> t1.data == t2.data
  {
  }

  /** A new type fits the registry when it takes the id of the types with its
      structure, or, for a new structure, an id above every id in use. */
  ghost predicate Fits(byData: map<TypeData, seq<Type>>, t: Type, nextId: int)
  {
    t.id < nextId &&
    (t.data in byData ==> byData[t.data] != [] && t.id == byData[t.data][0].id) &&
    (t.data !in byData ==> forall d :: d in byData && byData[d] != [] ==> byData[d][0].id < t.id)
  }

  /** The types listed under a structure so far (`defaultdict(list)`). */
  function Listed(byData: map<TypeData, seq<Type>>, d: TypeData): seq<Type>
  {
    if d in byData then byData[d] else []
  }

  /** Registering a fitting type, under its name or not, keeps the
      registry. */
  lemma RegistryAdd(named: map<string, Type>, byData: map<TypeData, seq<Type>>, nextId: int,
                    t: Type, named': map<string, Type>)
    requires Registry(named, byData, nextId) && Fits(byData, t, nextId)
    requires named' == named || named' == named[t.jsIdent := t]
    ensures Registry(named', byData[t.data := Listed(byData, t.data) + [t]], nextId)
  {
    GroupsAgreeAdd(byData, nextId, t);
    NamedListedAdd(named, byData, t, named');
    IdsDistinctAdd(byData, nextId, t);
  }

  lemma GroupsAgreeAdd(byData: map<TypeData, seq<Type>>, nextId: int, t: Type)
    requires GroupsAgree(byData, nextId) && Fits(byData, t, nextId)
    ensures GroupsAgree(byData[t.data := Listed(byData, t.data) + [t]], nextId)
  {
    var byData': map<TypeData, seq<Type>> := byData[t.data := Listed(byData, t.data) + [t]];
    forall d | d in byData'
      ensures byData'[d] != [] && forall u :: u in byData'[d] ==> u.data == d && u.id == byData'[d][0].id && u.id < nextId
    {
      if d == t.data {
        var old_ := Listed(byData, t.data);
        assert byData'[d] == old_ + [t];
        forall u | u in old_ + [t]
          ensures u.data == d && u.id == (old_ + [t])[0].id && u.id < nextId
        {
          if u != t {
            assert u in old_;
          }
        }
      }
    }
  }

  lemma NamedListedAdd(named: map<string, Type>, byData: map<TypeData, seq<Type>>, t: Type, named': map<string, Type>)
    requires NamedListed(named, byData) && Fits(byData, t, t.id + 1)
    requires named' == named || named' == named[t.jsIdent := t]
    ensures NamedListed(named', byData[t.data := Listed(byData, t.data) + [t]])
  {
  }

  lemma IdsDistinctAdd(byData: map<TypeData, seq<Type>>, nextId: int, t: Type)
    requires IdsDistinct(byData) && Fits(byData, t, nextId)
    ensures IdsDistinct(byData[t.data := Listed(byData, t.data) + [t]])
  {
  }

  /** No function type is filed by name among the other types. */
  ghost predicate NoFunctionsNamed(named: map<string, Type>)
  {
    forall n :: n in named ==> !named[n].data.FunctionData?
  }

  /** A description registers without error when every type it refers to is
      already named, its kind is one the builder knows, and, unless it
      describes a function type, its own name is new. */
  ghost predicate Loadable(d: TypeDict, names: set<string>)
  {
    (d.body.FunctionDict? || d.name !in names) &&
    match d.body
    case VoidDict => true
    case PrimDict(_, _, _) => d.name in TO_STR
    case StructDict(_, fieldTypes) => forall i :: 0 <= i < |fieldTypes| ==> fieldTypes[i] in names
    case PepperDict(p) => PepperTypeOf(p).Some?
    case PointerDict(base) => base in names
    case FunctionDict(result, args) => result in names && forall i :: 0 <= i < |args| ==> args[i] in names
    case AliasDict(alias) => alias in names
    case OtherKind(_) => false
  }

  /** The names filed after registering `d`: function types are not filed
      with the others. */
  function NamesAfter(d: TypeDict, names: set<string>): set<string>
  {
    if d.body.FunctionDict? then names else names + {d.name}
  }

  /** Each description in turn is loadable after the ones before it. */
  ghost predicate LoadableSeq(dicts: seq<TypeDict>, names: set<string>)
    decreases |dicts|
  {
    |dicts| == 0 || (Loadable(dicts[0], names) && LoadableSeq(dicts[1..], NamesAfter(dicts[0], names)))
  }

  /** The names filed after registering all of `dicts`. */
  function NamesAfterAll(dicts: seq<TypeDict>, names: set<string>): set<string>
    decreases |dicts|
  {
    if |dicts| == 0 then names else NamesAfterAll(dicts[1..], NamesAfter(dicts[0], names))
  }

  /** A loadable description has a structure. */
  lemma LoadableData(d: TypeDict, known: map<string, Type>)
    ensures Loadable(d, known.Keys) ==> TypeDictToTypeData(d.name, d.body, known).Ok?
  {
  }

  /** The type a description makes is a function type exactly when the
      description is a function description. */
  lemma DataKind(d: TypeDict, known: map<string, Type>, data: Option<TypeData>, t: Type)
    requires NoFunctionsNamed(known) && TypeDictToTypeData(d.name, d.body, known) == Ok(data)
    requires data.Some? ==> t.data == data.value
    requires d.body.AliasDict? ==> d.body.alias in known && t.data == known[d.body.alias].data
    ensures t.data.FunctionData? <==> d.body.FunctionDict?
  {
  }

  /** Filing the type a description makes adds the description's name,
      unless it is a function type. */
  lemma AddedNames(d: TypeDict, known: map<string, Type>, t: Type, named: map<string, Type>)
    requires t.jsIdent == d.name && (t.data.FunctionData? <==> d.body.FunctionDict?)
    requires named == if t.data.FunctionData? then known else known[t.jsIdent := t]
    ensures named.Keys == NamesAfter(d, known.Keys)
  {
  }

  /** What a `Types` holds: the two `OrderedDict`s are each a map with the
      list of its keys in the order they were first set. */
  datatype TypesState = TypesState(typeIdentDict: map<string, Type>,
                                   noBuiltins: map<string, Type>, noBuiltinsOrder: seq<string>,
                                   functionTypes: map<string, Type>, functionTypesOrder: seq<string>,
                                   typeDataDict: map<TypeData, seq<Type>>)

  const NO_TYPES: TypesState := TypesState(map[], map[], [], map[], [], map[])

  /** An `OrderedDict` assignment `m[k] = v`: a new key goes last, a key
      already present keeps its place. */
  function SetKey(keys: seq<string>, m: map<string, Type>, k: string): seq<string>
  {
    if k in m then keys else keys + [k]
  }

  /** `keys` lists the keys of `m`, each once. */
  ghost predicate InsertionOrder(keys: seq<string>, m: map<string, Type>)
  {
    (forall k :: k in m <==> k in keys) &&
    (forall i, j :: 0 <= i < j < |keys| ==> keys[i] != keys[j])
  }

  /** Both ordered dicts list their keys. */
  ghost predicate Ordered(s: TypesState)
  {
    InsertionOrder(s.noBuiltinsOrder, s.noBuiltins) && InsertionOrder(s.functionTypesOrder, s.functionTypes)
  }

  /** `Types.AddType`: lists `t` under its structure; files a function type
      among the function types; files any other type by name, and among the
      non-builtin types when it is not builtin, unless the name is taken
      (the assertion fails after `t` was listed). */
  function AddToTypes(s: TypesState, t: Type): TypesState
  {
    var byData := s.typeDataDict[t.data := Listed(s.typeDataDict, t.data) + [t]];
    if t.data.FunctionData? then
      s.(functionTypes := s.functionTypes[t.jsIdent := t],
         functionTypesOrder := SetKey(s.functionTypesOrder, s.functionTypes, t.jsIdent),
         typeDataDict := byData)
    else if t.jsIdent in s.typeIdentDict then
      s.(typeDataDict := byData)
    else if t.isBuiltin then
      s.(typeIdentDict := s.typeIdentDict[t.jsIdent := t], typeDataDict := byData)
    else
      s.(typeIdentDict := s.typeIdentDict[t.jsIdent := t],
         noBuiltins := s.noBuiltins[t.jsIdent := t],
         noBuiltinsOrder := SetKey(s.noBuiltinsOrder, s.noBuiltins, t.jsIdent),
         typeDataDict := byData)
  }

  /** `AddType` of each of `ts` in turn. */
  function AddAllToTypes(s: TypesState, ts: seq<Type>): TypesState
    decreases |ts|
  {
    if ts == [] then s else AddToTypes(AddAllToTypes(s, ts[..|ts| - 1]), ts[|ts| - 1])
  }

  /** Registering a run of one type is registering that type. */
  lemma AddAllOne(s: TypesState, t: Type)
    ensures AddAllToTypes(s, [t]) == AddToTypes(s, t)
  {
    assert [t][..0] == [];
  }

  lemma AddAllSnoc(s: TypesState, ts: seq<Type>, t: Type)
    ensures AddAllToTypes(s, ts + [t]) == AddToTypes(AddAllToTypes(s, ts), t)
  {
    assert (ts + [t])[..|ts|] == ts;
  }

  /** Setting a key keeps the list of keys, and the keys set before keep
      their places. */
  lemma SetKeyOrder(keys: seq<string>, m: map<string, Type>, k: string, t: Type)
    requires InsertionOrder(keys, m)
    ensures InsertionOrder(SetKey(keys, m, k), m[k := t]) && keys <= SetKey(keys, m, k)
  {
  }

  /** Registering a type keeps both ordered dicts' key lists, and the types
      registered before keep their places in the order the templates emit
      them. */
  lemma AddTypeKeepsOrder(s: TypesState, t: Type)
    requires Ordered(s)
    ensures Ordered(AddToTypes(s, t))
    ensures s.noBuiltinsOrder <= AddToTypes(s, t).noBuiltinsOrder
    ensures s.functionTypesOrder <= AddToTypes(s, t).functionTypesOrder
  {
    SetKeyOrder(s.noBuiltinsOrder, s.noBuiltins, t.jsIdent, t);
    SetKeyOrder(s.functionTypesOrder, s.functionTypes, t.jsIdent, t);
  }

  /** The same over any number of registrations. */
  lemma {:induction false} AddAllKeepsOrder(s: TypesState, ts: seq<Type>)
    requires Ordered(s)
    ensures Ordered(AddAllToTypes(s, ts))
    ensures s.noBuiltinsOrder <= AddAllToTypes(s, ts).noBuiltinsOrder
    ensures s.functionTypesOrder <= AddAllToTypes(s, ts).functionTypesOrder
    decreases |ts|
  {
    if ts != [] {
      var front := AddAllToTypes(s, ts[..|ts| - 1]);
      AddAllKeepsOrder(s, ts[..|ts| - 1]);
      AddTypeKeepsOrder(front, ts[|ts| - 1]);
    }
  }

  /** Registering builtin types leaves the non-builtin dict as it was. */
  lemma {:induction false} BuiltinsLeaveNoBuiltins(s: TypesState, ts: seq<Type>)
    requires forall i :: 0 <= i < |ts| ==> ts[i].isBuiltin
    ensures AddAllToTypes(s, ts).noBuiltins == s.noBuiltins
    ensures AddAllToTypes(s, ts).noBuiltinsOrder == s.noBuiltinsOrder
    decreases |ts|
  {
    if ts != [] {
      BuiltinsLeaveNoBuiltins(s, ts[..|ts| - 1]);
    }
  }

  /** A new, non-builtin type with a new name goes last in the order of
      the non-builtin types; a function type with a new name goes last
      among the function types. */
  lemma NewNameGoesLast(s: TypesState, t: Type)
    requires Ordered(s)
    ensures !t.data.FunctionData? && !t.isBuiltin && t.jsIdent !in s.typeIdentDict && t.jsIdent !in s.noBuiltins ==>
      AddToTypes(s, t).noBuiltinsOrder == s.noBuiltinsOrder + [t.jsIdent]
    ensures t.data.FunctionData? && t.jsIdent !in s.functionTypes ==>
      AddToTypes(s, t).functionTypesOrder == s.functionTypesOrder + [t.jsIdent]
    ensures t.data.FunctionData? && t.jsIdent in s.functionTypes ==>
      AddToTypes(s, t).functionTypesOrder == s.functionTypesOrder &&
      AddToTypes(s, t).functionTypes[t.jsIdent] == t
  {
  }

  /** The type `t` was made from the description `d`. */
  ghost predicate MadeFrom(t: Type, d: TypeDict, isBuiltin: bool)
  {
    t.jsIdent == d.name && t.isBuiltin == isBuiltin && (t.data.FunctionData? <==> d.body.FunctionDict?)
  }

  class IdGenerator {
    var nextId: nat

    constructor()
      ensures nextId == 1
    {
      nextId := 1;
    }

    method Get() returns (id: nat)
      modifies this
      ensures id == old(nextId) && nextId == old(nextId) + 1
    {
      id := nextId;
      nextId := nextId + 1;
    }

    method Set(n: nat)
      modifies this
      ensures nextId == n
    {
      nextId := n;
    }
  }

  class Types {
    /** Every type that is not a function type, by name. */
    var typeIdentDict: map<string, Type>
    /** The named types that are not builtin, an `OrderedDict`: the map and
        its keys in insertion order. */
    var noBuiltins: map<string, Type>
    var noBuiltinsOrder: seq<string>
    /** The function types, by name, an `OrderedDict` likewise. */
    var functionTypes: map<string, Type>
    var functionTypesOrder: seq<string>
    /** Every registered type, grouped by structure, in registration order. */
    var typeDataDict: map<TypeData, seq<Type>>

    /** The dicts as one value. */
    function State(): TypesState
      reads this
    {
      TypesState(typeIdentDict, noBuiltins, noBuiltinsOrder, functionTypes, functionTypesOrder, typeDataDict)
    }

    constructor()
      ensures typeIdentDict == map[] && noBuiltins == map[] && functionTypes == map[] && typeDataDict == map[]
      ensures State() == NO_TYPES
    {
      typeIdentDict := map[];
      noBuiltins := map[];
      noBuiltinsOrder := [];
      functionTypes := map[];
      functionTypesOrder := [];
      typeDataDict := map[];
    }

    /** Lists `t` under its structure, then files it by name: a function type
        among the function types, any other under a name that must be new
        (a repeated name fails after `t` was listed). */
    method AddType(t: Type) returns (ok: bool)
      modifies this
      ensures typeDataDict == old(typeDataDict)[t.data := Listed(old(typeDataDict), t.data) + [t]]
      ensures ok <==> t.data.FunctionData? || t.jsIdent !in old(typeIdentDict)
      ensures t.data.FunctionData? ==> functionTypes == old(functionTypes)[t.jsIdent := t]
      ensures !t.data.FunctionData? ==> functionTypes == old(functionTypes)
      ensures typeIdentDict == if ok && !t.data.FunctionData? then old(typeIdentDict)[t.jsIdent := t] else old(typeIdentDict)
      ensures noBuiltins == if ok && !t.data.FunctionData? && !t.isBuiltin then old(noBuiltins)[t.jsIdent := t] else old(noBuiltins)
      ensures functionTypesOrder ==
        if t.data.FunctionData? then SetKey(old(functionTypesOrder), old(functionTypes), t.jsIdent) else old(functionTypesOrder)
      ensures noBuiltinsOrder ==
        if ok && !t.data.FunctionData? && !t.isBuiltin then SetKey(old(noBuiltinsOrder), old(noBuiltins), t.jsIdent)
        else old(noBuiltinsOrder)
      ensures State() == AddToTypes(old(State()), t)
    {
      typeDataDict := typeDataDict[t.data := Listed(typeDataDict, t.data) + [t]];
      if t.data.FunctionData? {
        if t.jsIdent !in functionTypes {
          functionTypesOrder := functionTypesOrder + [t.jsIdent];
        }
        functionTypes := functionTypes[t.jsIdent := t];
        ok := true;
      } else {
        if t.jsIdent in typeIdentDict {
          return false;
        }
        typeIdentDict := typeIdentDict[t.jsIdent := t];
        if !t.isBuiltin {
          if t.jsIdent !in noBuiltins {
            noBuiltinsOrder := noBuiltinsOrder + [t.jsIdent];
          }
          noBuiltins := noBuiltins[t.jsIdent := t];
        }
        ok := true;
      }
    }
  }

  class TypesBuilder {
    const types: Types
    const idGen: IdGenerator

    ghost predicate Valid()
      reads this, types, idGen
    {
      Registry(types.typeIdentDict, types.typeDataDict, idGen.nextId) && NoFunctionsNamed(types.typeIdentDict) &&
      Ordered(types.State())
    }

    constructor()
      ensures Valid() && fresh(types) && fresh(idGen)
      ensures idGen.nextId == 1 && types.typeIdentDict == map[] && types.typeDataDict == map[]
      ensures types.State() == NO_TYPES
    {
      types := new Types();
      idGen := new IdGenerator();
    }

    /** The type a description makes. An alias takes the id and structure of
        the type it names; a type whose structure is already registered
        becomes an alias of the first type with that structure; only a new
        structure takes a new id. */
    method DictToType(name: string, alias: Option<string>, data: Option<TypeData>, isBuiltin: bool)
      returns (r: Result<Type, TypeError>)
      requires Valid()
      modifies idGen
      ensures Valid()
      ensures r.Ok? ==> r.value.jsIdent == name && r.value.cIdent == MakeCIdent(name) && r.value.isBuiltin == isBuiltin
      ensures r.Err? ==> !r.error.DuplicateTypename?
      ensures r.Ok? ==> Fits(types.typeDataDict, r.value, idGen.nextId)
      ensures alias.Some? ==> idGen.nextId == old(idGen.nextId) && (r.Ok? <==> alias.value in types.typeIdentDict)
      ensures alias.Some? && r.Ok? ==>
        var of := types.typeIdentDict[alias.value];
        r.value.id == of.id && r.value.data == of.data && r.value.aliasOf == Some(of.jsIdent)
      ensures alias.None? && data.None? ==> r == Err(NotTypeData) && idGen.nextId == old(idGen.nextId)
      ensures alias.None? && data.Some? && data.value in types.typeDataDict ==>
        var of := types.typeDataDict[data.value][0];
        idGen.nextId == old(idGen.nextId) && r.Ok? &&
        r.value.id == of.id && r.value.data == data.value && r.value.aliasOf == Some(of.jsIdent)
      ensures alias.None? && data.Some? && data.value !in types.typeDataDict ==>
        idGen.nextId == old(idGen.nextId) + 1 && r.Ok? &&
        r.value.id == old(idGen.nextId) && r.value.data == data.value && r.value.aliasOf.None?
    {
      var cIdent := MakeCIdent(name);
      if alias.Some? {
        if alias.value !in types.typeIdentDict {
          return Err(KeyError(alias.value));
        }
        var of := types.typeIdentDict[alias.value];
        return Ok(Type(of.id, name, cIdent, of.data, isBuiltin, Some(of.jsIdent)));
      }
      if data.None? {
        return Err(NotTypeData);
      }
      if data.value in types.typeDataDict {
        var of := types.typeDataDict[data.value][0];
        return Ok(Type(of.id, name, cIdent, of.data, isBuiltin, Some(of.jsIdent)));
      }
      var id := idGen.Get();
      r := Ok(Type(id, name, cIdent, data.value, isBuiltin, None));
    }

    /** The type a description makes, before it is filed. */
    method MakeType(d: TypeDict, isBuiltin: bool) returns (r: Result<Type, TypeError>)
      requires Valid()
      modifies idGen
      ensures Valid()
      ensures old(idGen.nextId) <= idGen.nextId <= old(idGen.nextId) + 1
      ensures Loadable(d, types.typeIdentDict.Keys) ==> r.Ok?
      ensures r.Ok? ==> Fits(types.typeDataDict, r.value, idGen.nextId)
      ensures r.Ok? ==> MadeFrom(r.value, d, isBuiltin)
      ensures r.Err? ==> !r.error.DuplicateTypename?
      ensures r.Ok? ==> r.value.jsIdent == d.name && (r.value.data.FunctionData? <==> d.body.FunctionDict?)
      ensures r.Ok? && !d.body.AliasDict? ==> TypeDictToTypeData(d.name, d.body, types.typeIdentDict) == Ok(Some(r.value.data))
    {
      var data := TypeDictToTypeData(d.name, d.body, types.typeIdentDict);
      LoadableData(d, types.typeIdentDict);
      if data.Err? {
        return Err(data.error);
      }
      var alias := if d.body.AliasDict? then Some(d.body.alias) else None;
      r := DictToType(d.name, alias, data.value, isBuiltin);
      if r.Ok? {
        DataKind(d, types.typeIdentDict, data.value, r.value);
      }
    }

    /** Registers the type a description makes. `listed` is the type
        `Types.AddType` was given, if it was reached: the type made, which
        is also listed when its name turns out to be taken. */
    method AddTypeDict(d: TypeDict, isBuiltin: bool) returns (r: Result<Type, TypeError>, ghost listed: seq<Type>)
      requires Valid()
      modifies types, idGen
      ensures Valid()
      ensures old(idGen.nextId) <= idGen.nextId <= old(idGen.nextId) + 1
      ensures types.State() == AddAllToTypes(old(types.State()), listed)
      ensures |listed| <= 1 && forall t :: t in listed ==> MadeFrom(t, d, isBuiltin)
      ensures r.Ok? ==> listed == [r.value]
      ensures r.Err? ==> (listed == [] <==> !r.error.DuplicateTypename?)
      ensures r.Err? && r.error.DuplicateTypename? ==> d.name in old(types.typeIdentDict) && !d.body.FunctionDict?
      ensures r.Ok? ==> r.value.data in types.typeDataDict && r.value in types.typeDataDict[r.value.data]
      ensures r.Ok? && !r.value.data.FunctionData? ==>
        r.value.jsIdent in types.typeIdentDict && types.typeIdentDict[r.value.jsIdent] == r.value
      ensures Loadable(d, old(types.typeIdentDict).Keys) ==> r.Ok?
      ensures r.Ok? ==> types.typeIdentDict.Keys == NamesAfter(d, old(types.typeIdentDict).Keys)
    {
      listed := [];
      var made := MakeType(d, isBuiltin);
      if made.Err? {
        return Err(made.error), listed;
      }
      r := Register(made.value, d, isBuiltin);
      listed := [made.value];
    }

    /** The second half of `AddTypeDict`: `Types.AddType` of the type made
        from `d`. */
    method Register(t: Type, ghost d: TypeDict, ghost isBuiltin: bool) returns (r: Result<Type, TypeError>)
      requires Valid() && Fits(types.typeDataDict, t, idGen.nextId) && MadeFrom(t, d, isBuiltin)
      modifies types
      ensures Valid()
      ensures types.State() == AddAllToTypes(old(types.State()), [t])
      ensures r.Ok? ==> r.value == t
      ensures r.Err? ==> r.error == DuplicateTypename(d.name) && d.name in old(types.typeIdentDict) && !d.body.FunctionDict?
      ensures t.data in types.typeDataDict && t in types.typeDataDict[t.data]
      ensures r.Ok? && !t.data.FunctionData? ==> t.jsIdent in types.typeIdentDict && types.typeIdentDict[t.jsIdent] == t
      ensures (d.body.FunctionDict? || d.name !in old(types.typeIdentDict)) ==> r.Ok?
      ensures r.Ok? ==> types.typeIdentDict.Keys == NamesAfter(d, old(types.typeIdentDict).Keys)
    {
      ghost var named, byData, before := types.typeIdentDict, types.typeDataDict, types.State();
      var ok := types.AddType(t);
      AddAllOne(before, t);
      AddTypeKeepsOrder(before, t);
      RegistryAdd(named, byData, idGen.nextId, t, types.typeIdentDict);
      if !ok {
        return Err(DuplicateTypename(t.jsIdent));
      }
      AddedNames(d, named, t, types.typeIdentDict);
      r := Ok(t);
    }

    /** Registers descriptions in order, stopping at the first that fails.
        `listed` is every type `Types.AddType` was given. */
    method AddTypeDicts(dicts: seq<TypeDict>, isBuiltin: bool) returns (err: Option<TypeError>, ghost listed: seq<Type>)
      requires Valid()
      modifies types, idGen
      ensures Valid()
      ensures old(idGen.nextId) <= idGen.nextId <= old(idGen.nextId) + |dicts|
      ensures types.State() == AddAllToTypes(old(types.State()), listed)
      ensures err.None? ==> |listed| == |dicts| && forall i :: 0 <= i < |dicts| ==> MadeFrom(listed[i], dicts[i], isBuiltin)
      ensures err.Some? ==> |listed| <= |dicts| && forall i :: 0 <= i < |listed| ==> MadeFrom(listed[i], dicts[i], isBuiltin)
      ensures LoadableSeq(dicts, old(types.typeIdentDict).Keys) ==>
        err.None? && types.typeIdentDict.Keys == NamesAfterAll(dicts, old(types.typeIdentDict).Keys)
    {
      listed := [];
      for i := 0 to |dicts|
        invariant Valid()
        invariant old(idGen.nextId) <= idGen.nextId <= old(idGen.nextId) + i
        invariant types.State() == AddAllToTypes(old(types.State()), listed)
        invariant |listed| == i && forall k :: 0 <= k < i ==> MadeFrom(listed[k], dicts[k], isBuiltin)
        invariant LoadableSeq(dicts, old(types.typeIdentDict).Keys) ==>
          LoadableSeq(dicts[i..], types.typeIdentDict.Keys) &&
          NamesAfterAll(dicts[i..], types.typeIdentDict.Keys) == NamesAfterAll(dicts, old(types.typeIdentDict).Keys)
      {
        assert dicts[i..][1..] == dicts[i + 1..];
        ghost var mid := types.State();
        var r;
        ghost var one;
        r, one := AddTypeDict(dicts[i], isBuiltin);
        MadeStep(old(types.State()), listed, one, mid, types.State(), dicts, isBuiltin);
        listed := listed + one;
        if r.Err? {
          return Some(r.error), listed;
        }
      }
      return None, listed;
    }

    /** Registers the function type of one overload. */
    method AddSignature(o: FnDict, isBuiltin: bool) returns (r: Result<Type, TypeError>)
      requires Valid()
      modifies types, idGen
      ensures Valid()
      ensures types.typeIdentDict == old(types.typeIdentDict)
      ensures old(idGen.nextId) <= idGen.nextId <= old(idGen.nextId) + 1
      ensures Loadable(AsTypeDict(o), types.typeIdentDict.Keys) ==> r.Ok?
      ensures r.Ok? ==> SignatureFiled(o, r.value, isBuiltin, types.typeIdentDict, types.typeDataDict)
      ensures r.Ok? ==> MadeFrom(r.value, AsTypeDict(o), isBuiltin)
      ensures r.Ok? ==> types.State() == AddToTypes(old(types.State()), r.value)
      ensures r.Ok? ==> types.typeDataDict == old(types.typeDataDict)[r.value.data := Listed(old(types.typeDataDict), r.value.data) + [r.value]]
      ensures r.Ok? ==> types.functionTypes == old(types.functionTypes)[o.name := r.value]
      ensures types.noBuiltins == old(types.noBuiltins) && types.noBuiltinsOrder == old(types.noBuiltinsOrder)
      ensures r.Err? ==> types.State() == old(types.State())
    {
      r := MakeType(AsTypeDict(o), isBuiltin);
      if r.Err? {
        return;
      }
      ghost var named, byData, before := types.typeIdentDict, types.typeDataDict, types.State();
      var ok := types.AddType(r.value);
      AddTypeKeepsOrder(before, r.value);
      RegistryAdd(named, byData, idGen.nextId, r.value, types.typeIdentDict);
    }

    /** `AddFunctionDict`: registers the function type of each overload in
        turn, stopping at the first whose result or argument type is not
        registered. Function types are never filed by name among the other
        types, so the names stay as they were. `listed` is every type
        registered, which on success is the list returned. */
    method AddFunctionDict(f: FnDict, isBuiltin: bool) returns (r: Result<seq<Type>, TypeError>, ghost listed: seq<Type>)
      requires Valid()
      modifies types, idGen
      ensures Valid()
      ensures types.typeIdentDict == old(types.typeIdentDict)
      ensures types.noBuiltins == old(types.noBuiltins) && types.noBuiltinsOrder == old(types.noBuiltinsOrder)
      ensures old(idGen.nextId) <= idGen.nextId <= old(idGen.nextId) + |OverloadsOf(f)|
      ensures types.State() == AddAllToTypes(old(types.State()), listed)
      ensures |listed| <= |OverloadsOf(f)| && forall k :: 0 <= k < |listed| ==>
        SignatureFiled(OverloadsOf(f)[k], listed[k], isBuiltin, types.typeIdentDict, types.typeDataDict)
      ensures (forall o :: o in OverloadsOf(f) ==> Loadable(AsTypeDict(o), types.typeIdentDict.Keys)) ==> r.Ok?
      ensures r.Ok? ==> r.value == listed && |r.value| == |OverloadsOf(f)|
      ensures r.Ok? ==> forall k :: 0 <= k < |r.value| ==>
        SignatureFiled(OverloadsOf(f)[k], r.value[k], isBuiltin, types.typeIdentDict, types.typeDataDict)
    {
      var fns := OverloadsOf(f);
      var out: seq<Type> := [];
      for i := 0 to |fns|
        invariant Valid()
        invariant types.typeIdentDict == old(types.typeIdentDict)
        invariant types.noBuiltins == old(types.noBuiltins) && types.noBuiltinsOrder == old(types.noBuiltinsOrder)
        invariant old(idGen.nextId) <= idGen.nextId <= old(idGen.nextId) + i
        invariant types.State() == AddAllToTypes(old(types.State()), out)
        invariant |out| == i
        invariant forall k :: 0 <= k < i ==> SignatureFiled(fns[k], out[k], isBuiltin, types.typeIdentDict, types.typeDataDict)
      {
        ghost var byData, mid := types.typeDataDict, types.State();
        var t := AddSignature(fns[i], isBuiltin);
        if t.Err? {
          assert fns[i] in OverloadsOf(f);
          return Err(t.error), out;
        }
        SignatureStep(old(types.State()), out, t.value, mid, types.State());
        FiledStep(fns, out, isBuiltin, types.typeIdentDict, byData, t.value, types.typeDataDict);
        out := out + [t.value];
      }
      r, listed := Ok(out), out;
    }
  }

  /** One more step of `AddTypeDicts`: the types registered so far, then
      those of the next description. */
  lemma MadeStep(s0: TypesState, before: seq<Type>, one: seq<Type>, s1: TypesState, s2: TypesState,
                 dicts: seq<TypeDict>, isBuiltin: bool)
    requires s1 == AddAllToTypes(s0, before) && s2 == AddAllToTypes(s1, one)
    requires |before| < |dicts| && forall k :: 0 <= k < |before| ==> MadeFrom(before[k], dicts[k], isBuiltin)
    requires |one| <= 1 && forall t :: t in one ==> MadeFrom(t, dicts[|before|], isBuiltin)
    ensures s2 == AddAllToTypes(s0, before + one)
    ensures forall k :: 0 <= k < |before + one| ==> MadeFrom((before + one)[k], dicts[k], isBuiltin)
  {
    AddAllAppend(s0, before, one);
    MadeListStep(before, one, dicts, isBuiltin);
  }

  /** The types made so far, then those of the next description, each
      made from the description at its place. */
  lemma MadeListStep(before: seq<Type>, one: seq<Type>, dicts: seq<TypeDict>, isBuiltin: bool)
    requires |before| < |dicts| && forall k :: 0 <= k < |before| ==> MadeFrom(before[k], dicts[k], isBuiltin)
    requires |one| <= 1 && forall t :: t in one ==> MadeFrom(t, dicts[|before|], isBuiltin)
    ensures forall k :: 0 <= k < |before + one| ==> MadeFrom((before + one)[k], dicts[k], isBuiltin)
  {
    forall k | 0 <= k < |before + one|
      ensures MadeFrom((before + one)[k], dicts[k], isBuiltin)
    {
      if k < |before| {
        assert (before + one)[k] == before[k];
      } else {
        assert (before + one)[k] == one[0] && one[0] in one;
      }
    }
  }

  /** One more step of `AddFunctionDict`: the types registered so far, then
      the function type of the next overload. */
  lemma SignatureStep(s0: TypesState, out: seq<Type>, t: Type, s1: TypesState, s2: TypesState)
    requires s1 == AddAllToTypes(s0, out) && s2 == AddToTypes(s1, t)
    ensures s2 == AddAllToTypes(s0, out + [t])
  {
    AddAllSnoc(s0, out, t);
  }

  /** Registering one run of types, then another. */
  lemma {:induction false} AddAllAppend(s: TypesState, ts: seq<Type>, more: seq<Type>)
    ensures AddAllToTypes(s, ts + more) == AddAllToTypes(AddAllToTypes(s, ts), more)
    decreases |more|
  {
    if more == [] {
      assert ts + more == ts;
    } else {
      var front := more[..|more| - 1];
      AddAllAppend(s, ts, front);
      assert (ts + more)[..|ts + more| - 1] == ts + front;
    }
  }

  /** The function type `t` was made from `o`, with the structure its
      signature names, and is listed under that structure. */
  ghost predicate SignatureFiled(o: FnDict, t: Type, isBuiltin: bool, named: map<string, Type>, byData: map<TypeData, seq<Type>>)
  {
    t.jsIdent == o.name && t.isBuiltin == isBuiltin && FunctionTypeData(o.result, o.args, named) == Ok(t.data) &&
    t.data in byData && t in byData[t.data]
  }

  /** Listing one more type keeps every type listed. */
  lemma FiledKept(o: FnDict, t: Type, isBuiltin: bool, named: map<string, Type>, byData: map<TypeData, seq<Type>>, u: Type)
    requires SignatureFiled(o, t, isBuiltin, named, byData)
    ensures SignatureFiled(o, t, isBuiltin, named, byData[u.data := Listed(byData, u.data) + [u]])
  {
    if u.data == t.data {
      assert t in Listed(byData, u.data) + [u];
    }
  }

  /** `FiledKept` for every overload registered so far. */
  lemma AllFiledKept(fns: seq<FnDict>, out: seq<Type>, isBuiltin: bool, named: map<string, Type>,
                     byData: map<TypeData, seq<Type>>, u: Type)
    requires |out| <= |fns|
    requires forall k :: 0 <= k < |out| ==> SignatureFiled(fns[k], out[k], isBuiltin, named, byData)
    ensures forall k :: 0 <= k < |out| ==>
      SignatureFiled(fns[k], out[k], isBuiltin, named, byData[u.data := Listed(byData, u.data) + [u]])
  {
    forall k | 0 <= k < |out|
      ensures SignatureFiled(fns[k], out[k], isBuiltin, named, byData[u.data := Listed(byData, u.data) + [u]])
    {
      FiledKept(fns[k], out[k], isBuiltin, named, byData, u);
    }
  }

  /** The function types registered so far stay listed once `u`, the
      function type of the next overload, is listed too. */
  lemma FiledStep(fns: seq<FnDict>, out: seq<Type>, isBuiltin: bool, named: map<string, Type>,
                  byData: map<TypeData, seq<Type>>, u: Type, byData': map<TypeData, seq<Type>>)
    requires |out| < |fns|
    requires forall k :: 0 <= k < |out| ==> SignatureFiled(fns[k], out[k], isBuiltin, named, byData)
    requires byData' == byData[u.data := Listed(byData, u.data) + [u]]
    requires SignatureFiled(fns[|out|], u, isBuiltin, named, byData')
    ensures forall k :: 0 <= k < |out + [u]| ==> SignatureFiled(fns[k], (out + [u])[k], isBuiltin, named, byData')
  {
    AllFiledKept(fns, out, isBuiltin, named, byData, u);
    forall k | 0 <= k < |out + [u]|
      ensures SignatureFiled(fns[k], (out + [u])[k], isBuiltin, named, byData')
    {
      if k < |out| {
        assert (out + [u])[k] == out[k];
      }
    }
  }

  /** A new builder; with the builtin types, which take the ids from 1 up,
      user types are numbered from `FIRST_ID`. */
  method NewTypesBuilder(addBuiltinTypes: bool) returns (r: Result<TypesBuilder, TypeError>)
    ensures r.Ok? ==> fresh(r.value) && fresh(r.value.types) && fresh(r.value.idGen) && r.value.Valid()
    ensures r.Ok? && !addBuiltinTypes ==> r.value.idGen.nextId == 1 && r.value.types.State() == NO_TYPES
    ensures r.Ok? ==> r.value.types.noBuiltins == map[] && r.value.types.noBuiltinsOrder == []
    ensures r.Ok? && addBuiltinTypes ==> r.value.idGen.nextId == FIRST_ID
    ensures !addBuiltinTypes ==> r.Ok?
    ensures addBuiltinTypes && LoadableSeq(BUILTIN_TYPES, {}) ==>
      r.Ok? && r.value.types.typeIdentDict.Keys == NamesAfterAll(BUILTIN_TYPES, {})
    ensures r.Ok? && addBuiltinTypes ==>
      forall d :: d in r.value.types.typeDataDict ==>
        forall t :: t in r.value.types.typeDataDict[d] ==> t.id <= |BUILTIN_TYPES| < FIRST_ID
  {
    var b := new TypesBuilder();
    if addBuiltinTypes {
      assert b.types.typeIdentDict.Keys == {};
      var err;
      ghost var listed;
      err, listed := b.AddTypeDicts(BUILTIN_TYPES, true);
      if err.Some? {
        return Err(err.value);
      }
      BuiltinsLeaveNoBuiltins(NO_TYPES, listed);
      assert |BUILTIN_TYPES| == 46;
      BuiltinIds(b.types.typeIdentDict, b.types.typeDataDict, b.idGen.nextId);
      b.idGen.Set(FIRST_ID);
    }
    r := Ok(b);
  }

  /** The builtin types take the ids handed out while the table loads. */
  lemma BuiltinIds(named: map<string, Type>, byData: map<TypeData, seq<Type>>, nextId: nat)
    requires Registry(named, byData, nextId) && nextId <= |BUILTIN_TYPES| + 1
    ensures forall d :: d in byData ==> forall t :: t in byData[d] ==> t.id <= |BUILTIN_TYPES|
  {
  }
}

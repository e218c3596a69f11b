/** The type registry and argument coercion of the generated JavaScript
    runtime (dist/naclbind.js): type data with structural equality, a
    `TypeBuilder` whose ids, names and type data are unique, the integer
    type of a number literal, the primitive coercion rules, struct layout
    and the command list a module sends. */
module DistTypes {
  import opened Wrappers
  import opened Ints

  /** The data a type carries, as far as equality and size depend on it.
      A struct's fields are kept by `StructLayout`. */
  datatype TypeData =
    | VoidData
    | PrimitiveData(name: string, size: nat, isSigned: bool, isInt: bool)
    | PointerData(base: TypeData)
    | StructData(name: string, size: nat)
    | FunctionData(ret: TypeData, args: seq<TypeData>)
    | PepperData(name: string, jsPrototype: nat)

  /** `sizeof` of each kind of type data. */
  function Sizeof(d: TypeData): nat
  {
    match d
    case VoidData => 0
    case PrimitiveData(_, size, _, _) => size
    case PointerData(_) => 4
    case StructData(_, size) => size
    case FunctionData(_, _) => 4
    case PepperData(_, _) => 20
  }

  /** The `equals` methods of the type data classes: structs compare by
      name only, pepper types by their JavaScript prototype, pointers and
      functions by the data of the types they are built from. */
  predicate Equals(a: TypeData, b: TypeData)
  {
    match a
    case VoidData => b.VoidData?
    case PrimitiveData(name, size, isSigned, isInt) =>
      b.PrimitiveData? && b.name == name && b.size == size && b.isSigned == isSigned && b.isInt == isInt
    case PointerData(base) => b.PointerData? && Equals(base, b.base)
    case StructData(name, _) => b.StructData? && b.name == name
    case FunctionData(ret, args) =>
      b.FunctionData? && Equals(ret, b.ret) && |args| == |b.args| &&
      forall i :: 0 <= i < |args| ==> Equals(args[i], b.args[i])
    case PepperData(_, jsPrototype) => b.PepperData? && b.jsPrototype == jsPrototype
  }

  lemma {:induction false} EqualsReflexive(a: TypeData)
    ensures Equals(a, a)
  {
    match a
    case PointerData(base) => EqualsReflexive(base);
    case FunctionData(ret, args) =>
      EqualsReflexive(ret);
      forall i | 0 <= i < |args| ensures Equals(args[i], args[i]) {
        EqualsReflexive(args[i]);
      }
    case _ =>
  }

  lemma {:induction false} EqualsSymmetric(a: TypeData, b: TypeData)
    requires Equals(a, b)
    ensures Equals(b, a)
  {
    match a
    case PointerData(base) => EqualsSymmetric(base, b.base);
    case FunctionData(ret, args) =>
      EqualsSymmetric(ret, b.ret);
      forall i | 0 <= i < |args| ensures Equals(b.args[i], args[i]) {
        EqualsSymmetric(args[i], b.args[i]);
      }
    case _ =>
  }

  lemma {:induction false} EqualsTransitive(a: TypeData, b: TypeData, c: TypeData)
    requires Equals(a, b) && Equals(b, c)
    ensures Equals(a, c)
  {
    match a
    case PointerData(base) => EqualsTransitive(base, b.base, c.base);
    case FunctionData(ret, args) =>
      EqualsTransitive(ret, b.ret, c.ret);
      forall i | 0 <= i < |args| ensures Equals(args[i], c.args[i]) {
        EqualsTransitive(args[i], b.args[i], c.args[i]);
      }
    case _ =>
  }

  /** Equal type data have equal sizes, except for structs, which are
      equal by name alone. */
  lemma EqualsSameSize(a: TypeData, b: TypeData)
    requires Equals(a, b) && !a.StructData?
    ensures Sizeof(a) == Sizeof(b)
  {
  }

  // ---------------------------------------------------------------------
  // TypeBuilder

  /** A registered type: its id, its name and its data. An alias has the
      id and the data of the type it aliases and a name of its own. */
  datatype JsType = JsType(id: int, name: string, data: TypeData)

  datatype BuildError = ZeroId | DuplicateId(id: int) | DuplicateName(name: string)
    | DuplicateData(existing: int) | UnknownAlias(alias: string)

  /** The registry invariant: ids are non-zero, every registered type is
      also found by its name, every name leads to a registered id with the
      same data, no two ids carry equal data, and `idOrder` lists the
      ids. */
  predicate Registry(idHash: map<int, JsType>, idOrder: seq<int>, nameHash: map<string, JsType>)
  {
    (forall id :: id in idHash ==>
       id != 0 && idHash[id].id == id &&
       idHash[id].name in nameHash && nameHash[idHash[id].name] == idHash[id]) &&
    (forall n :: n in nameHash ==>
       nameHash[n].name == n && nameHash[n].id in idHash &&
       nameHash[n].data == idHash[nameHash[n].id].data) &&
    (forall i, j :: i in idHash && j in idHash && i != j ==> !Equals(idHash[i].data, idHash[j].data)) &&
    (forall m :: 0 <= m < |idOrder| ==> idOrder[m] in idHash) && (forall id :: id in idHash ==> id in idOrder)
  }

  /** Registering a type with a new id, a new name and data unlike every
      registered type's keeps the invariant. */
  lemma RegisterKeepsRegistry(idHash: map<int, JsType>, idOrder: seq<int>, nameHash: map<string, JsType>, t: JsType)
    requires Registry(idHash, idOrder, nameHash)
    requires t.id != 0 && t.id !in idHash && t.name !in nameHash
    requires forall other :: other in idHash ==> !Equals(idHash[other].data, t.data)
    ensures Registry(idHash[t.id := t], idOrder + [t.id], nameHash[t.name := t])
  {
    forall i | i in idHash
      ensures !Equals(t.data, idHash[i].data)
    {
      if Equals(t.data, idHash[i].data) {
        EqualsSymmetric(t.data, idHash[i].data);
      }
    }
    var order := idOrder + [t.id];
    assert forall m :: 0 <= m < |idOrder| ==> order[m] == idOrder[m];
    assert t.id == order[|idOrder|];
  }

  /** Adding a name for a registered type keeps the invariant. */
  lemma AliasKeepsRegistry(idHash: map<int, JsType>, idOrder: seq<int>, nameHash: map<string, JsType>,
                           name: string, other: JsType)
    requires Registry(idHash, idOrder, nameHash)
    requires name !in nameHash && other in nameHash.Values
    ensures Registry(idHash, idOrder, nameHash[name := JsType(other.id, name, other.data)])
  {
  }

  /** `TypeBuilder`: registered types by id, and by name including
      aliases. `idOrder` holds the keys of `idHash` in registration
      order; a JavaScript `for`-`in` loop visits integer keys in ascending
      order instead, which `EqualDataUnique` shows makes no difference to
      the lookup by data. */
  class TypeBuilder {
    var idHash: map<int, JsType>
    var idOrder: seq<int>
    var nameHash: map<string, JsType>

    predicate Valid()
      reads this
    {
      Registry(idHash, idOrder, nameHash)
    }

    constructor()
      ensures Valid() && idHash == map[] && nameHash == map[]
    {
      idHash := map[];
      idOrder := [];
      nameHash := map[];
    }

    /** `findTypeData`: a registered type whose data equals `data`, if
        there is one. */
    method FindTypeData(data: TypeData) returns (r: Option<JsType>)
      ensures r.None? <==> forall id :: id in idHash ==> !Equals(idHash[id].data, data)
      ensures r.Some? ==> r.value.id in idHash && idHash[r.value.id] == r.value && Equals(r.value.data, data)
      requires Valid()
    {
      var k := 0;
      while k < |idOrder|
        invariant 0 <= k <= |idOrder|
        invariant forall m :: 0 <= m < k ==> !Equals(idHash[idOrder[m]].data, data)
      {
        var id := idOrder[k];
        if Equals(idHash[id].data, data) {
          assert idHash[id].id == id;
          return Some(idHash[id]);
        }
        k := k + 1;
      }
      forall id | id in idHash
        ensures !Equals(idHash[id].data, data)
      {
        assert id in idOrder;
        var m :| 0 <= m < |idOrder| && idOrder[m] == id;
      }
      return None;
    }

    /** At most one registered type has data equal to `data`, so the
        order in which `FindTypeData` visits the ids does not matter. */
    lemma EqualDataUnique(data: TypeData, i: int, j: int)
      requires Valid() && i in idHash && j in idHash
      requires Equals(idHash[i].data, data) && Equals(idHash[j].data, data)
      ensures i == j
    {
      if i != j {
        EqualsSymmetric(idHash[j].data, data);
        EqualsTransitive(idHash[i].data, data, idHash[j].data);
      }
    }

    /** `registerType_`: refuses id 0, a used id, a used name and data
        equal to a registered type's; otherwise registers the type under
        its id and its name. */
    method RegisterType(id: int, name: string, data: TypeData) returns (r: Result<JsType, BuildError>)
      requires Valid()
      modifies this
      ensures Valid()
      ensures id == 0 ==> r == Err(ZeroId)
      ensures id != 0 && id in old(idHash) ==> r == Err(DuplicateId(id))
      ensures id != 0 && id !in old(idHash) && name in old(nameHash) ==> r == Err(DuplicateName(name))
      ensures r.Err? ==> idHash == old(idHash) && nameHash == old(nameHash)
      ensures r.Err? && id != 0 && id !in old(idHash) && name !in old(nameHash) ==>
        r.error.DuplicateData? && r.error.existing in old(idHash) &&
        Equals(old(idHash)[r.error.existing].data, data)
      ensures r.Ok? <==>
        id != 0 && id !in old(idHash) && name !in old(nameHash) &&
        forall other :: other in old(idHash) ==> !Equals(old(idHash)[other].data, data)
      ensures r.Ok? ==>
        r.value == JsType(id, name, data) &&
        idHash == old(idHash)[id := r.value] && nameHash == old(nameHash)[name := r.value]
    {
      if id == 0 {
        return Err(ZeroId);
      }
      if id in idHash {
        return Err(DuplicateId(id));
      }
      if name in nameHash {
        return Err(DuplicateName(name));
      }
      var other := FindTypeData(data);
      if other.Some? {
        return Err(DuplicateData(other.value.id));
      }
      var t := JsType(id, name, data);
      RegisterKeepsRegistry(idHash, idOrder, nameHash, t);
      idHash := idHash[id := t];
      idOrder := idOrder + [id];
      nameHash := nameHash[name := t];
      return Ok(t);
    }

    /** `makeAliasType`: a new name for the type registered as `alias`,
        with the same id and data; the name must be new. */
    method MakeAliasType(name: string, alias: string) returns (r: Result<JsType, BuildError>)
      requires Valid()
      modifies this
      ensures Valid() && idHash == old(idHash) && idOrder == old(idOrder)
      ensures alias !in old(nameHash) ==> r == Err(UnknownAlias(alias)) && nameHash == old(nameHash)
      ensures alias in old(nameHash) && name in old(nameHash) ==>
        r == Err(DuplicateName(name)) && nameHash == old(nameHash)
      ensures alias in old(nameHash) && name !in old(nameHash) ==>
        r.Ok? && r.value.id == old(nameHash)[alias].id && r.value.data == old(nameHash)[alias].data &&
        r.value.name == name && nameHash == old(nameHash)[name := r.value]
    {
      if alias !in nameHash {
        return Err(UnknownAlias(alias));
      }
      var other := nameHash[alias];
      var t := JsType(other.id, name, other.data);
      if name in nameHash {
        return Err(DuplicateName(name));
      }
      AliasKeepsRegistry(idHash, idOrder, nameHash, name, other);
      nameHash := nameHash[name := t];
      return Ok(t);
    }
  }

  // ---------------------------------------------------------------------
  // Number literals and primitive coercion

  lemma {:induction false} Pow2Monotone(m: nat, n: nat)
    requires m <= n
    ensures Pow2(m) <= Pow2(n)
  {
    if m < n {
      Pow2Monotone(m, n - 1);
    }
  }

  /** The values an integer type of `size` bytes holds. */
  predicate InIntRange(v: int, size: nat, isSigned: bool)
  {
    if isSigned then -(Pow2(8 * size) / 2) as int <= v < Pow2(8 * size) / 2
    else 0 <= v < Pow2(8 * size)
  }

  lemma Pow2Byte()
    ensures Pow2(8) == 256
  {
  }

  lemma Pow2Short()
    ensures Pow2(16) == 65536
  {
    Pow2Byte();
    Pow2Add(8, 8);
  }

  lemma Pow2Word()
    ensures Pow2(32) == 4294967296
  {
    Pow2Short();
    Pow2Add(16, 16);
  }

  lemma Pow2Double()
    ensures Pow2(64) == 18446744073709551616
  {
    Pow2Word();
    Pow2Add(32, 32);
  }

  /** The signed ranges of 1, 2, 4 and 8 bytes. */
  lemma SignedRanges(v: int)
    ensures InIntRange(v, 1, true) <==> -128 <= v <= 127
    ensures InIntRange(v, 2, true) <==> -32768 <= v <= 32767
    ensures InIntRange(v, 4, true) <==> -2147483648 <= v <= 2147483647
    ensures InIntRange(v, 8, true) <==> -9223372036854775808 <= v <= 9223372036854775807
  {
    Pow2Byte();
    Pow2Short();
    Pow2Word();
    Pow2Double();
  }

  /** `getIntType_`: the name of the smallest of int8, int16, int32 and
      int64 that holds `value`; uint64 for a value above all of them; an
      error for one below. */
  function GetIntType(value: int): (r: Result<string, int>)
    ensures r == Ok("int8") <==> InIntRange(value, 1, true)
    ensures r == Ok("int16") <==> InIntRange(value, 2, true) && !InIntRange(value, 1, true)
    ensures r == Ok("int32") <==> InIntRange(value, 4, true) && !InIntRange(value, 2, true)
    ensures r == Ok("int64") <==> InIntRange(value, 8, true) && !InIntRange(value, 4, true)
    ensures r == Ok("uint64") <==> value > 0 && !InIntRange(value, 8, true)
    ensures r.Err? <==> value < 0 && !InIntRange(value, 8, true)
  {
    SignedRanges(value);
    if -128 <= value <= 127 then Ok("int8")
    else if -32768 <= value <= 32767 then Ok("int16")
    else if -2147483648 <= value <= 2147483647 then Ok("int32")
    else if -9223372036854775808 <= value <= 9223372036854775807 then Ok("int64")
    else if value > 0 then Ok("uint64")
    else Err(value)
  }

  /** Outcomes of `canCoercePrimitive_`: allowed, refused (false), or
      one of its two exceptions. */
  datatype Coercion = Coerces | Refused | TooLarge | FloatToInt

  /** `canCoercePrimitive_`. `fromValue` is the argument when it is a
      number; `float32` and `float64` are the registered types of those
      names. */
  function CanCoercePrimitive(fromValue: Option<int>, fromType: JsType, toType: JsType): (c: Coercion)
    requires fromType.data.PrimitiveData? && toType.data.PrimitiveData?
    ensures var f, t := fromType.data, toType.data;
      (c == FloatToInt <==> !f.isInt && t.isInt) &&
      (f.isInt == t.isInt ==> (c == TooLarge <==> f.size > t.size)) &&
      (f.isInt && !t.isInt ==>
        (c == TooLarge <==> (toType.name == "float32" && f.size >= 4) || (toType.name == "float64" && f.size == 8))) &&
      (c == Refused <==> f.isInt && t.isInt && f.size == t.size && f.isSigned && !t.isSigned &&
                          fromValue.Some? && fromValue.value < 0)
    ensures var f, t := fromType.data, toType.data;
      c == Coerces <==>
        (f.isInt == t.isInt && f.size <= t.size &&
         !(f.isInt && f.size == t.size && f.isSigned && !t.isSigned && fromValue.Some? && fromValue.value < 0)) ||
        (f.isInt && !t.isInt && !((toType.name == "float32" && f.size >= 4) || (toType.name == "float64" && f.size == 8)))
  {
    var f, t := fromType.data, toType.data;
    if f.isInt == t.isInt then
      if f.isInt then
        if f.size > t.size then TooLarge
        else if f.size == t.size && f.isSigned != t.isSigned && f.isSigned && fromValue.Some? then
          (if fromValue.value >= 0 then Coerces else Refused)
        else Coerces
      else if f.size > t.size then TooLarge
      else Coerces
    else if f.isInt then
      if (toType.name == "float32" && f.size >= 4) || (toType.name == "float64" && f.size == 8) then TooLarge
      else Coerces
    else FloatToInt
  }

  /** A number literal passed as a signed integer type that holds it
      keeps its value when coerced to an integer type that is signed or
      of the same size. */
  lemma LiteralCoercionKeepsValue(v: int, fromType: JsType, toType: JsType)
    requires fromType.data.PrimitiveData? && toType.data.PrimitiveData?
    requires fromType.data.isInt && fromType.data.isSigned && toType.data.isInt
    requires InIntRange(v, fromType.data.size, true)
    requires toType.data.isSigned || toType.data.size == fromType.data.size
    requires CanCoercePrimitive(Some(v), fromType, toType) == Coerces
    ensures InIntRange(v, toType.data.size, toType.data.isSigned)
  {
    Pow2Monotone(8 * fromType.data.size, 8 * toType.data.size);
  }

  // ---------------------------------------------------------------------
  // Struct layout

  /** A field: its type data and its byte offset. */
  datatype Field = Field(data: TypeData, offset: int)

  datatype FieldError = NegativeOffset | PastEnd | DuplicateField(name: string)

  /** The fields of a struct type being built. */
  class StructLayout {
    const name: string
    const size: nat
    var fields: map<string, Field>

    /** Every field lies inside the struct. */
    predicate Valid()
      reads this
    {
      forall f :: f in fields ==> 0 <= fields[f].offset && fields[f].offset + Sizeof(fields[f].data) <= size
    }

    constructor(name: string, size: nat)
      ensures Valid() && this.name == name && this.size == size && fields == map[]
    {
      this.name := name;
      this.size := size;
      fields := map[];
    }

    /** `addField_`: a field must start at a non-negative offset, end
        inside the struct and have a new name. */
    method AddField(fieldName: string, data: TypeData, offset: int) returns (r: Result<(), FieldError>)
      requires Valid()
      modifies this
      ensures Valid()
      ensures r.Ok? <==> 0 <= offset && offset + Sizeof(data) <= size && fieldName !in old(fields)
      ensures r.Ok? ==> fields == old(fields)[fieldName := Field(data, offset)]
      ensures r.Err? ==> fields == old(fields)
    {
      if offset < 0 {
        return Err(NegativeOffset);
      }
      if offset + Sizeof(data) > size {
        return Err(PastEnd);
      }
      if fieldName in fields {
        return Err(DuplicateField(fieldName));
      }
      fields := fields[fieldName := Field(data, offset)];
      return Ok(());
    }
  }

  // ---------------------------------------------------------------------
  // Commands

  /** An argument of a call: a handle, sent as its id, or a plain value. */
  datatype Arg = HandleArg(id: int) | ValueArg(value: int)

  /** One queued command message. */
  datatype Message = Message(cmd: string, typ: int, args: seq<int>, argIsHandle: seq<bool>, ret: Option<int>)

  /** The arguments a message stands for: each value read back as a
      handle id or a plain value as its flag says. */
  function ArgsOf(m: Message): seq<Arg>
    requires |m.args| == |m.argIsHandle|
  {
    seq(|m.args|, i requires 0 <= i < |m.args| =>
      if m.argIsHandle[i] then HandleArg(m.args[i]) else ValueArg(m.args[i]))
  }

  /** The commands of a module, waiting to be committed. */
  class Module {
    var commands: seq<Message>

    constructor()
      ensures commands == []
    {
      commands := [];
    }

    /** `pushCommand_`: appends a message whose i-th flag says whether
        argument i is a handle, sending its id if so and its value
        otherwise. */
    method PushCommand(cmd: string, typ: int, args: seq<Arg>, ret: Option<int>)
      modifies this
      ensures |commands| == |old(commands)| + 1 && commands[..|old(commands)|] == old(commands)
      ensures var m := commands[|old(commands)|];
        m.cmd == cmd && m.typ == typ && m.ret == ret &&
        |m.args| == |args| && |m.argIsHandle| == |args| &&
        forall i :: 0 <= i < |args| ==>
          (m.argIsHandle[i] <==> args[i].HandleArg?) &&
          m.args[i] == (if args[i].HandleArg? then args[i].id else args[i].value)
    {
      var values: seq<int> := [];
      var isHandle: seq<bool> := [];
      var i := 0;
      while i < |args|
        invariant 0 <= i <= |args| && |values| == i && |isHandle| == i
        invariant forall k :: 0 <= k < i ==>
          (isHandle[k] <==> args[k].HandleArg?) &&
          values[k] == (if args[k].HandleArg? then args[k].id else args[k].value)
      {
        var value := if args[i].HandleArg? then args[i].id else args[i].value;
        values := values + [value];
        isHandle := isHandle + [args[i].HandleArg?];
        i := i + 1;
      }
      commands := commands + [Message(cmd, typ, values, isHandle, ret)];
    }
  }

  /** A message built as `PushCommand` builds it gives back the arguments
      it was built from. */
  lemma MessageRoundTrip(m: Message, args: seq<Arg>)
    requires |m.args| == |args| && |m.argIsHandle| == |args|
    requires forall i :: 0 <= i < |args| ==>
      (m.argIsHandle[i] <==> args[i].HandleArg?) &&
      m.args[i] == (if args[i].HandleArg? then args[i].id else args[i].value)
    ensures ArgsOf(m) == args
  {
  }
}

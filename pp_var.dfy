/** The PPAPI `PP_Var` value that the native runtime exchanges with
    JavaScript: a tagged union whose arrays and dictionaries are modelled as
    immutable values (reference counting is not modelled). */
module PpVar {
  import opened Ints

  datatype VarType =
    | UNDEFINED | NULL | BOOL | INT32 | DOUBLE | STRING | OBJECT
    | ARRAY | DICTIONARY | ARRAY_BUFFER | RESOURCE

  /** A dictionary is the list of its (key, value) entries in the order the
      browser enumerates its keys. */
  datatype Var =
    | Undefined
    | Null
    | Bool(b: bool)
    | I32(i: Int32)
    | Dbl(d: real)
    | Str(s: string)
    | Object(objectId: nat)
    | Arr(elems: seq<Var>)
    | Dict(entries: seq<(string, Var)>)
    | ArrayBuffer(bytes: seq<int>)
    | Resource(resourceId: nat)

  function TypeOf(v: Var): VarType
  {
    match v
    case Undefined => UNDEFINED
    case Null => NULL
    case Bool(_) => BOOL
    case I32(_) => INT32
    case Dbl(_) => DOUBLE
    case Str(_) => STRING
    case Object(_) => OBJECT
    case Arr(_) => ARRAY
    case Dict(_) => DICTIONARY
    case ArrayBuffer(_) => ARRAY_BUFFER
    case Resource(_) => RESOURCE
  }

  predicate HasKey(entries: seq<(string, Var)>, key: string)
  {
    exists i :: 0 <= i < |entries| && entries[i].0 == key
  }

  /** `nb_var_dict_get`: the value stored under `key`, or undefined. */
  function DictGet(entries: seq<(string, Var)>, key: string): (r: Var)
    ensures !HasKey(entries, key) ==> r == Undefined
    ensures HasKey(entries, key) ==> exists i :: 0 <= i < |entries| && entries[i] == (key, r)
  {
    if |entries| == 0 then Undefined
    else if entries[0].0 == key then entries[0].1
    else
      var r := DictGet(entries[1..], key);
      assert forall i :: 0 <= i < |entries| - 1 ==> entries[1..][i] == entries[i + 1];
      r
  }

  /** `nb_var_dict_get_keys`: the keys in enumeration order. */
  function DictKeys(entries: seq<(string, Var)>): (keys: seq<string>)
    ensures |keys| == |entries|
    ensures forall i :: 0 <= i < |keys| ==> keys[i] == entries[i].0
  {
    if |entries| == 0 then [] else [entries[0].0] + DictKeys(entries[1..])
  }

  predicate DistinctKeys(entries: seq<(string, Var)>)
  {
    forall j, k :: 0 <= j < k < |entries| ==> entries[j].0 != entries[k].0
  }

  /** With distinct keys every key finds its own entry. */
  lemma {:induction false} DictGetDistinct(entries: seq<(string, Var)>, i: nat)
    requires DistinctKeys(entries) && i < |entries|
    ensures DictGet(entries, entries[i].0) == entries[i].1
  {
    if i > 0 {
      assert entries[0].0 != entries[i].0;
      assert entries[1..][i - 1] == entries[i];
      DictGetDistinct(entries[1..], i - 1);
    }
  }

  /** `nb_var_array_set`: setting past the end grows the array, filling the
      gap with undefined values. */
  function ArraySet(elems: seq<Var>, index: nat, v: Var): (r: seq<Var>)
    ensures |r| == if index < |elems| then |elems| else index + 1
    ensures r[index] == v
    ensures forall i :: 0 <= i < |elems| && i != index ==> r[i] == elems[i]
  {
    if index < |elems| then elems[index := v]
    else elems + seq(index - |elems|, _ => Undefined) + [v]
  }
}

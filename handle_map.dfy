/** The native handle map of src/c/handle.c: a growable array of
    (handle, object) pairs kept sorted by handle, searched by bisection. */
module HandleMap {
  import opened Ints
  import opened Wrappers
  import opened HandleValues
  import PpVar

  datatype Entry = Entry(handle: Handle, value: Value)

  /** `HANDLE_MAP_INITIAL_CAPACITY`. */
  const INITIAL_CAPACITY: nat := 16

  /** Strictly increasing handles; in particular no handle occurs twice. */
  ghost predicate Sorted(s: seq<Entry>)
  {
    forall i, j :: 0 <= i < j < |s| ==> s[i].handle < s[j].handle
  }

  ghost predicate AllWellTyped(s: seq<Entry>)
  {
    forall i :: 0 <= i < |s| ==> WellTyped(s[i].value)
  }

  function Keys(s: seq<Entry>): set<Handle>
  {
    set i | 0 <= i < |s| :: s[i].handle
  }

  /** The object registered under `h`, if any (the first one, for a
      sequence that is not sorted). */
  function Lookup(s: seq<Entry>, h: Handle): (r: Option<Value>)
    ensures r.None? <==> h !in Keys(s)
  {
    if |s| == 0 then None
    else if s[0].handle == h then Some(s[0].value)
    else
      assert Keys(s) == {s[0].handle} + Keys(s[1..]) by { KeysCons(s); }
      Lookup(s[1..], h)
  }

  /** Reference definition of registration: the entry goes before the
      first larger handle; an existing handle leaves the map as it was. */
  function InsertSorted(s: seq<Entry>, e: Entry): seq<Entry>
  {
    if |s| == 0 then [e]
    else if e.handle < s[0].handle then [e] + s
    else if e.handle == s[0].handle then s
    else [s[0]] + InsertSorted(s[1..], e)
  }

  /** Reference definition of destruction: the first entry for `h` goes. */
  function Remove(s: seq<Entry>, h: Handle): seq<Entry>
  {
    if |s| == 0 then []
    else if s[0].handle == h then s[1..]
    else [s[0]] + Remove(s[1..], h)
  }

  function RemoveAll(s: seq<Entry>, hs: seq<Handle>): seq<Entry>
    decreases |hs|
  {
    if |hs| == 0 then s else RemoveAll(Remove(s, hs[0]), hs[1..])
  }

  lemma KeysCons(s: seq<Entry>)
    requires |s| > 0
    ensures Keys(s) == {s[0].handle} + Keys(s[1..])
  {
    forall k | k in Keys(s) ensures k in {s[0].handle} + Keys(s[1..]) {
      var i :| 0 <= i < |s| && s[i].handle == k;
      if i > 0 { assert s[1..][i - 1].handle == k; }
    }
    forall k | k in Keys(s[1..]) ensures k in Keys(s) {
      var i :| 0 <= i < |s[1..]| && s[1..][i].handle == k;
      assert s[i + 1].handle == k;
    }
  }

  /** The head of a sorted map is below every other handle. */
  lemma SortedHead(s: seq<Entry>)
    requires Sorted(s) && |s| > 0
    ensures Sorted(s[1..])
    ensures forall k :: k in Keys(s[1..]) ==> s[0].handle < k
  {
    forall k | k in Keys(s[1..]) ensures s[0].handle < k {
      var i :| 0 <= i < |s[1..]| && s[1..][i].handle == k;
      assert s[i + 1].handle == k;
    }
  }

  lemma SortedCons(x: Entry, t: seq<Entry>)
    requires Sorted(t)
    requires forall k :: k in Keys(t) ==> x.handle < k
    ensures Sorted([x] + t)
    ensures Keys([x] + t) == {x.handle} + Keys(t)
  {
    var r := [x] + t;
    forall i, j | 0 <= i < j < |r| ensures r[i].handle < r[j].handle {
      assert r[j] == t[j - 1];
      assert t[j - 1].handle in Keys(t);
      if i > 0 { assert r[i] == t[i - 1]; }
    }
    KeysCons(r);
    assert r[1..] == t;
  }

  /** Registration keeps the map sorted and adds exactly the new handle. */
  lemma {:induction false} InsertSortedSorted(s: seq<Entry>, e: Entry)
    requires Sorted(s)
    ensures Sorted(InsertSorted(s, e))
    ensures Keys(InsertSorted(s, e)) == Keys(s) + {e.handle}
    ensures |InsertSorted(s, e)| == if e.handle in Keys(s) then |s| else |s| + 1
  {
    if |s| == 0 {
      SortedCons(e, []);
      assert [e] + [] == [e];
    } else {
      KeysCons(s);
      SortedHead(s);
      if e.handle < s[0].handle {
        SortedCons(e, s);
        assert e.handle !in Keys(s);
      } else if e.handle > s[0].handle {
        var t := InsertSorted(s[1..], e);
        assert InsertSorted(s, e) == [s[0]] + t;
        InsertSortedSorted(s[1..], e);
        SortedCons(s[0], t);
        assert e.handle in Keys(s) <==> e.handle in Keys(s[1..]);
      }
    }
  }

  /** After registering a new handle it maps to its object and every other
      handle keeps its own. */
  lemma {:induction false} LookupInsert(s: seq<Entry>, e: Entry, k: Handle)
    requires e.handle !in Keys(s)
    ensures Lookup(InsertSorted(s, e), k) == if k == e.handle then Some(e.value) else Lookup(s, k)
  {
    if |s| > 0 {
      KeysCons(s);
      if e.handle < s[0].handle {
        assert ([e] + s)[1..] == s;
      } else {
        assert ([s[0]] + InsertSorted(s[1..], e))[1..] == InsertSorted(s[1..], e);
        LookupInsert(s[1..], e, k);
      }
    }
  }

  /** Destruction keeps the map sorted and drops exactly the handle. */
  lemma {:induction false} RemoveSorted(s: seq<Entry>, h: Handle)
    requires Sorted(s)
    ensures Sorted(Remove(s, h))
    ensures Keys(Remove(s, h)) == Keys(s) - {h}
    ensures |Remove(s, h)| == if h in Keys(s) then |s| - 1 else |s|
  {
    if |s| > 0 {
      KeysCons(s);
      SortedHead(s);
      if s[0].handle != h {
        RemoveSorted(s[1..], h);
        SortedCons(s[0], Remove(s[1..], h));
      }
    }
  }

  /** After destroying a handle it is unknown and every other handle keeps
      its object. */
  lemma {:induction false} LookupRemove(s: seq<Entry>, h: Handle, k: Handle)
    requires Sorted(s)
    ensures Lookup(Remove(s, h), k) == if k == h then None else Lookup(s, k)
  {
    RemoveSorted(s, h);
    if |s| > 0 && s[0].handle != h {
      SortedHead(s);
      assert ([s[0]] + Remove(s[1..], h))[1..] == Remove(s[1..], h);
      LookupRemove(s[1..], h, k);
    }
  }

  /** The array shift of registration computes the reference insertion. */
  lemma {:induction false} InsertAt(s: seq<Entry>, i: nat, e: Entry)
    requires i <= |s|
    requires forall k :: 0 <= k < i ==> s[k].handle < e.handle
    requires forall k :: i <= k < |s| ==> s[k].handle > e.handle
    ensures InsertSorted(s, e) == s[..i] + [e] + s[i..]
  {
    if i > 0 {
      InsertAt(s[1..], i - 1, e);
      assert s[..i] == [s[0]] + s[1..][..i - 1];
      assert s[i..] == s[1..][i - 1..];
    } else {
      assert s[i..] == s;
    }
  }

  /** The array shift of destruction computes the reference removal. */
  lemma {:induction false} RemoveAt(s: seq<Entry>, i: nat)
    requires Sorted(s) && i < |s|
    ensures Remove(s, s[i].handle) == s[..i] + s[i + 1..]
  {
    if i > 0 {
      RemoveAt(s[1..], i - 1);
      assert s[1..][i - 1] == s[i];
      assert s[..i] == [s[0]] + s[1..][..i - 1];
      assert s[i + 1..] == s[1..][i..];
    }
  }

  /** In a sorted map the entry found at `i` is the one `Lookup` returns. */
  lemma {:induction false} LookupAt(s: seq<Entry>, i: nat)
    requires Sorted(s) && i < |s|
    ensures Lookup(s, s[i].handle) == Some(s[i].value)
  {
    if i > 0 {
      LookupAt(s[1..], i - 1);
      assert s[1..][i - 1] == s[i];
    }
  }

  lemma AbsentKey(s: seq<Entry>, h: Handle)
    requires forall k :: 0 <= k < |s| ==> s[k].handle != h
    ensures h !in Keys(s)
  {
  }

  lemma KeysCount(s: seq<Entry>)
    requires Sorted(s)
    ensures |Keys(s)| == |s|
  {
    if |s| > 0 {
      KeysCons(s);
      SortedHead(s);
      KeysCount(s[1..]);
    }
  }

  lemma RemoveAbsent(s: seq<Entry>, h: Handle)
    requires h !in Keys(s)
    ensures Remove(s, h) == s
  {
    if |s| > 0 {
      KeysCons(s);
      RemoveAbsent(s[1..], h);
    }
  }

  /** A successful integer getter returns a value of the target type. */
  lemma IntCheckSound(value: Value, to: CType)
    requires IsIntType(to) && WellTyped(value) && value.IntValue?
    requires GetIntFrom(value, to).Some?
    ensures MinOfType(to) <= GetIntFrom(value, to).value <= MaxOfType(to)
  {
    GetIntIffFits(value.t, value.n, to);
  }

  /** The capacity after a registration attempt: the map is allocated on
      first use and doubled when full, before the handle is looked up. */
  function GrownCapacity(capacity: nat, size: nat): nat
  {
    if capacity == 0 then INITIAL_CAPACITY
    else if size == capacity then 2 * capacity
    else capacity
  }

  lemma RemoveWellTyped(s: seq<Entry>, h: Handle)
    requires AllWellTyped(s)
    ensures AllWellTyped(Remove(s, h))
  {
    if |s| > 0 && s[0].handle != h {
      RemoveWellTyped(s[1..], h);
      var r := [s[0]] + Remove(s[1..], h);
      forall i | 0 <= i < |r| ensures WellTyped(r[i].value) {
        if i > 0 { assert r[i] == Remove(s[1..], h)[i - 1]; }
      }
    }
  }

  class HandleTable {
    /** `s_handle_map`; an array of length 0 stands for the NULL map and
        its length is `s_handle_map_capacity`. */
    var pairs: array<Entry>
    /** `s_handle_map_size`. */
    var size: nat

    ghost predicate Valid()
      reads this, pairs
    {
      size <= pairs.Length && Sorted(pairs[..size]) && AllWellTyped(pairs[..size])
    }

    function Contents(): seq<Entry>
      reads this, pairs
      requires size <= pairs.Length
    {
      pairs[..size]
    }

    constructor()
      ensures Valid() && Contents() == [] && pairs.Length == 0
    {
      pairs := new Entry[0];
      size := 0;
    }

    /** `nb_handle_count`. */
    method Count() returns (n: nat)
      requires Valid()
      ensures n == |Contents()| == |Keys(Contents())|
    {
      n := size;
      KeysCount(pairs[..size]);
    }

    /** `resize_handle_map`: a fresh array with the same first `size`
        entries. */
    method Resize(capacity: nat)
      requires Valid() && size <= capacity
      modifies this
      ensures Valid() && fresh(pairs) && pairs.Length == capacity
      ensures size == old(size) && Contents() == old(Contents())
    {
      var grown := new Entry[capacity];
      var k := 0;
      while k < size
        modifies grown
        invariant 0 <= k <= size
        invariant grown[..k] == pairs[..k]
      {
        grown[k] := pairs[k];
        k := k + 1;
      }
      assert grown[..size] == pairs[..size];
      pairs := grown;
    }

    /** The bisection shared by `register_handle`, `get_handle` and
        `nb_handle_destroy`. */
    method Search(h: Handle) returns (found: bool, index: nat)
      requires Valid()
      ensures found ==> index < size && pairs[index].handle == h
      ensures !found ==> (index <= size
        && (forall k :: 0 <= k < index ==> pairs[k].handle < h)
        && (forall k :: index <= k < size ==> pairs[k].handle > h))
    {
      var lo, hi := 0, size;
      while lo < hi
        invariant 0 <= lo <= hi <= size
        invariant forall k :: 0 <= k < lo ==> pairs[k].handle < h
        invariant forall k :: hi <= k < size ==> pairs[k].handle > h
      {
        var mid := (lo + hi) / 2;
        assert pairs[..size][mid] == pairs[mid];
        if h > pairs[mid].handle {
          forall k | 0 <= k <= mid ensures pairs[k].handle < h {
            assert pairs[..size][k] == pairs[k];
          }
          lo := mid + 1;
        } else if h < pairs[mid].handle {
          forall k | mid <= k < size ensures pairs[k].handle > h {
            assert pairs[..size][k] == pairs[k];
          }
          hi := mid;
        } else {
          return true, mid;
        }
      }
      return false, lo;
    }

    /** Where `register_handle` puts a new handle: at 0 in an empty map,
        at the end when it is larger than the last handle, and otherwise
        where the bisection stops. */
    method InsertionPoint(h: Handle) returns (found: bool, index: nat)
      requires Valid()
      ensures found <==> h in Keys(Contents())
      ensures !found ==> (index <= size
        && (forall k :: 0 <= k < index ==> pairs[k].handle < h)
        && (forall k :: index <= k < size ==> pairs[k].handle > h))
    {
      if size == 0 {
        return false, 0;
      }
      if h > pairs[size - 1].handle {
        forall k | 0 <= k < size ensures pairs[k].handle < h {
          assert pairs[..size][k] == pairs[k] && pairs[..size][size - 1] == pairs[size - 1];
        }
        found, index := false, size;
      } else {
        found, index := Search(h);
      }
      if found {
        assert pairs[..size][index].handle == h;
      } else {
        forall k | 0 <= k < size ensures pairs[..size][k].handle != h {
          assert pairs[..size][k] == pairs[k];
        }
      }
    }

    /** The `memmove` of `register_handle` followed by the store of the new
        pair. */
    method ShiftInsert(index: nat, e: Entry)
      requires size < pairs.Length && index <= size
      modifies this, pairs
      ensures pairs == old(pairs) && size == old(size) + 1
      ensures pairs[..size] == old(pairs[..size])[..index] + [e] + old(pairs[..size])[index..]
    {
      ghost var s := pairs[..size];
      ghost var r := s[..index] + [e] + s[index..];
      var j := size;
      while j > index
        modifies pairs
        invariant index <= j <= size
        invariant forall k :: 0 <= k < j ==> pairs[k] == s[k]
        invariant forall k :: j < k <= size ==> pairs[k] == s[k - 1]
      {
        pairs[j] := pairs[j - 1];
        j := j - 1;
      }
      pairs[index] := e;
      size := size + 1;
      forall k | 0 <= k < size ensures pairs[k] == r[k] {
        if k < index { assert r[k] == s[k]; }
        else if k > index { assert r[k] == s[k - 1]; }
      }
      assert pairs[..size] == r;
    }

    /** `register_handle`: fails on a handle that is already registered,
        otherwise inserts the pair at its sorted position. */
    method Register(h: Handle, value: Value) returns (ok: bool)
      requires Valid() && WellTyped(value)
      modifies this, pairs
      ensures Valid()
      ensures ok <==> h !in Keys(old(Contents()))
      ensures Contents() == if ok then InsertSorted(old(Contents()), Entry(h, value)) else old(Contents())
      ensures pairs.Length == GrownCapacity(old(pairs.Length), old(size))
      ensures pairs == old(pairs) || fresh(pairs)
    {
      if pairs.Length == 0 {
        Resize(INITIAL_CAPACITY);
      }
      if size == pairs.Length {
        Resize(2 * pairs.Length);
      }
      var found, index := InsertionPoint(h);
      if found {
        return false;
      }
      ghost var s := pairs[..size];
      var e := Entry(h, value);
      InsertAt(s, index, e);
      InsertSortedSorted(s, e);
      ShiftInsert(index, e);
      InsertWellTyped(s, index, e);
      ok := true;
    }

    /** `get_handle`. */
    method Get(h: Handle) returns (r: Option<Value>)
      requires Valid()
      ensures r == Lookup(Contents(), h)
      ensures r.Some? ==> WellTyped(r.value)
    {
      var found, index := Search(h);
      if found {
        LookupAt(pairs[..size], index);
        assert pairs[..size][index] == pairs[index];
        return Some(pairs[index].value);
      }
      forall k | 0 <= k < size ensures pairs[..size][k].handle != h {
        assert pairs[..size][k] == pairs[k];
      }
      AbsentKey(pairs[..size], h);
      return None;
    }

    /** The `memmove` of `nb_handle_destroy`. */
    method ShiftRemove(index: nat)
      requires index < size <= pairs.Length
      modifies this, pairs
      ensures pairs == old(pairs) && size == old(size) - 1
      ensures pairs[..size] == old(pairs[..size])[..index] + old(pairs[..size])[index + 1..]
    {
      ghost var s := pairs[..size];
      ghost var r := s[..index] + s[index + 1..];
      var j := index;
      while j + 1 < size
        modifies pairs
        invariant index <= j < size
        invariant forall k :: 0 <= k < j ==> pairs[k] == r[k]
        invariant forall k :: j < k < size ==> pairs[k] == s[k]
      {
        assert r[j] == s[j + 1];
        pairs[j] := pairs[j + 1];
        j := j + 1;
      }
      size := size - 1;
      forall k | 0 <= k < size ensures pairs[k] == r[k] {
      }
      assert pairs[..size] == r;
    }

    /** `nb_handle_destroy`: reports whether the handle existed and closes
        the gap it leaves. */
    method Destroy(h: Handle) returns (existed: bool)
      requires Valid()
      modifies this, pairs
      ensures Valid() && pairs == old(pairs)
      ensures existed <==> h in Keys(old(Contents()))
      ensures Contents() == Remove(old(Contents()), h)
    {
      ghost var s := pairs[..size];
      var found, index := Search(h);
      if !found {
        forall k | 0 <= k < size ensures s[k].handle != h {
          assert s[k] == pairs[k];
        }
        AbsentKey(s, h);
        RemoveAbsent(s, h);
        return false;
      }
      assert s[index] == pairs[index];
      RemoveAt(s, index);
      RemoveSorted(s, h);
      RemoveWellTyped(s, h);
      ShiftRemove(index);
      existed := true;
    }

    /** `nb_handle_destroy_many`. */
    method DestroyMany(handles: seq<Handle>)
      requires Valid()
      modifies this, pairs
      ensures Valid() && pairs == old(pairs)
      ensures Contents() == RemoveAll(old(Contents()), handles)
    {
      var i := 0;
      while i < |handles|
        invariant 0 <= i <= |handles| && Valid() && pairs == old(pairs)
        invariant RemoveAll(Contents(), handles[i..]) == RemoveAll(old(Contents()), handles)
      {
        assert handles[i..][1..] == handles[i + 1..];
        var _ := Destroy(handles[i]);
        i := i + 1;
      }
    }

    /** `nb_handle_register_int8` ... `nb_handle_register_uint64`: the C
        parameter type keeps the value within its range. */
    method RegisterInt(h: Handle, t: CType, n: int) returns (ok: bool)
      requires Valid() && IsIntType(t) && FitsType(n, t)
      modifies this, pairs
      ensures Valid()
      ensures ok <==> h !in Keys(old(Contents()))
      ensures Contents() == if ok then InsertSorted(old(Contents()), Entry(h, IntValue(t, n))) else old(Contents())
      ensures pairs == old(pairs) || fresh(pairs)
    {
      ok := Register(h, IntValue(t, n));
    }

    /** `nb_handle_register_var`: only strings, arrays, dictionaries and
        array buffers are registered. */
    method RegisterVar(h: Handle, v: PpVar.Var) returns (ok: bool)
      requires Valid()
      modifies this, pairs
      ensures Valid()
      ensures ok <==> RegistrableVar(v) && h !in Keys(old(Contents()))
      ensures Contents() == if ok then InsertSorted(old(Contents()), Entry(h, VarValue(v))) else old(Contents())
      ensures pairs == old(pairs) || fresh(pairs)
    {
      if !RegistrableVar(v) {
        return false;
      }
      ok := Register(h, VarValue(v));
    }

    /** `nb_handle_get_int8` ... `nb_handle_get_uint64`. */
    method GetInt(h: Handle, to: CType) returns (r: Option<int>)
      requires Valid() && IsIntType(to)
      ensures r.Some? ==> h in Keys(Contents()) && MinOfType(to) <= r.value <= MaxOfType(to)
      ensures h in Keys(Contents()) ==> r == GetIntFrom(Lookup(Contents(), h).value, to)
    {
      var obj := Get(h);
      if obj.None? {
        return None;
      }
      r := GetIntFrom(obj.value, to);
      if r.Some? && obj.value.IntValue? {
        IntCheckSound(obj.value, to);
      }
    }

    /** `nb_handle_get_float` and `nb_handle_get_double`. */
    method GetReal(h: Handle, toDouble: bool) returns (r: Option<real>)
      requires Valid()
      ensures r.Some? ==> h in Keys(Contents())
      ensures h in Keys(Contents()) ==> r == GetRealFrom(Lookup(Contents(), h).value, toDouble)
    {
      var obj := Get(h);
      if obj.None? {
        return None;
      }
      r := GetRealFrom(obj.value, toDouble);
    }

    /** `nb_handle_get_voidp` and `nb_handle_get_charp`. */
    method GetPointer(h: Handle) returns (r: Option<Pointer>)
      requires Valid()
      ensures r.Some? <==> (h in Keys(Contents()) &&
        var v := Lookup(Contents(), h).value; v.VoidPtr? || (v.VarValue? && v.v.Str?))
      ensures h in Keys(Contents()) ==> r == GetPointerFrom(Lookup(Contents(), h).value)
    {
      var obj := Get(h);
      if obj.None? {
        return None;
      }
      r := GetPointerFrom(obj.value);
    }

    /** `nb_handle_get_var`. */
    method GetVar(h: Handle) returns (r: Option<PpVar.Var>)
      requires Valid()
      ensures r.Some? <==> h in Keys(Contents()) && Lookup(Contents(), h).value.VarValue?
      ensures r.Some? ==> Lookup(Contents(), h) == Some(VarValue(r.value))
    {
      var obj := Get(h);
      if obj.None? {
        return None;
      }
      r := GetVarFrom(obj.value);
    }

    /** `nb_handle_convert_to_var`. */
    method ToVar(h: Handle) returns (r: Option<PpVar.Var>)
      requires Valid()
      ensures r.Some? ==> h in Keys(Contents())
      ensures h in Keys(Contents()) ==> r == ConvertToVar(h, Lookup(Contents(), h).value)
    {
      var obj := Get(h);
      if obj.None? {
        return None;
      }
      r := ConvertToVar(h, obj.value);
    }
  }

  lemma InsertWellTyped(s: seq<Entry>, index: nat, e: Entry)
    requires AllWellTyped(s) && WellTyped(e.value) && index <= |s|
    ensures AllWellTyped(s[..index] + [e] + s[index..])
  {
    var r := s[..index] + [e] + s[index..];
    forall k | 0 <= k < |r| ensures WellTyped(r[k].value) {
      if k < index { assert r[k] == s[k]; }
      else if k > index { assert r[k] == s[k - 1]; }
    }
  }
}

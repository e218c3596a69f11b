/** Handle bookkeeping of the JavaScript module (src/js/naclbind.js):
    `HandleList` hands out ids and remembers the root handle of each id,
    `Context` remembers the handles it registered so it can run their
    finalizers, and a handle's finalizer always lives on its root. */
module JsHandles {
  import opened Wrappers
  import opened CTypes
  import opened TypeCasts

  /** The identity of a finalizer callback. What a finalizer does when
      called is not modelled; only which one is called, and on what. */
  type Callback = nat

  /** A handle: its id, its C type and the value it stands for. Handles
      made by a cast share the id of the handle they were cast from. */
  datatype Handle = Handle(id: int, typ: Type, value: int)

  /** The handle registered under an id, with its finalizer if one is set. */
  datatype Root = Root(handle: Handle, finalizer: Option<Callback>)

  /** One finalizer call: the callback, bound to the root with this id. */
  datatype Call = Call(callback: Callback, handleId: int)

  datatype HandleError = NotRegistered | InvalidCast | AlreadyHasFinalizer(id: int)

  /** The finalizer calls for the handles `ids`, latest-created first. */
  function FinalizerCalls(ids: seq<int>, roots: map<int, Root>): seq<Call>
    requires forall id :: id in ids ==> id in roots
  {
    if ids == [] then []
    else
      var id := ids[|ids| - 1];
      (if roots[id].finalizer.Some? then [Call(roots[id].finalizer.value, id)] else [])
        + FinalizerCalls(ids[..|ids| - 1], roots)
  }

  /** The handles created later have their finalizers called earlier. */
  lemma {:induction false} FinalizerCallsAppend(a: seq<int>, b: seq<int>, roots: map<int, Root>)
    requires forall id :: id in a + b ==> id in roots
    ensures FinalizerCalls(a + b, roots) == FinalizerCalls(b, roots) + FinalizerCalls(a, roots)
  {
    if b == [] {
      assert a + b == a;
    } else {
      var id := b[|b| - 1];
      var init := b[..|b| - 1];
      var last := if roots[id].finalizer.Some? then [Call(roots[id].finalizer.value, id)] else [];
      assert (a + b)[..|a + b| - 1] == a + init;
      assert FinalizerCalls(a + b, roots) == last + FinalizerCalls(a + init, roots);
      assert FinalizerCalls(b, roots) == last + FinalizerCalls(init, roots);
      FinalizerCallsAppend(a, init, roots);
    }
  }

  /** A finalizer is called on a handle exactly when the handle is among
      `ids` and that finalizer is set on its root. */
  lemma {:induction false} FinalizerCallsExactly(ids: seq<int>, roots: map<int, Root>, c: Call)
    requires forall id :: id in ids ==> id in roots
    ensures c in FinalizerCalls(ids, roots) <==>
      c.handleId in ids && roots[c.handleId].finalizer == Some(c.callback)
  {
    if ids != [] {
      var init := ids[..|ids| - 1];
      assert ids == init + [ids[|ids| - 1]];
      FinalizerCallsExactly(init, roots, c);
    }
  }

  /** `Handle.prototype.cast`: a cast handle keeps the id and the value,
      and is refused only when the types cannot be cast at all. */
  function Cast(h: Handle, toType: Type): (r: Result<Handle, HandleError>)
    ensures r.Err? <==> CanCast(h.typ, toType) == CAST_ERROR
    ensures r.Ok? ==> r.value.id == h.id && r.value.value == h.value && r.value.typ == toType
  {
    if CanCast(h.typ, toType) == CAST_ERROR then Err(InvalidCast)
    else Ok(Handle(h.id, toType, h.value))
  }

  /** `HandleList`: the next id to hand out and the root handle of every
      id handed out so far. */
  class HandleList {
    var nextId: int
    var roots: map<int, Root>

    /** Every registered id is positive and below the next id. */
    predicate Valid()
      reads this
    {
      nextId >= 1 && forall id :: id in roots ==> 1 <= id < nextId
    }

    constructor()
      ensures Valid() && nextId == 1 && roots == map[]
    {
      nextId := 1;
      roots := map[];
    }

    /** `Handle.prototype.setFinalizer`: sets the finalizer on the root
        handle with `h`'s id, so a finalizer set through a cast lands on
        the handle it was cast from; a root that already has one is left
        alone and the call fails. */
    method SetFinalizer(h: Handle, callback: Callback) returns (r: Result<(), HandleError>)
      requires Valid()
      modifies this
      ensures Valid() && nextId == old(nextId)
      ensures h.id !in old(roots) ==> r == Err(NotRegistered) && roots == old(roots)
      ensures h.id in old(roots) && old(roots)[h.id].finalizer.Some? ==>
        r == Err(AlreadyHasFinalizer(h.id)) && roots == old(roots)
      ensures h.id in old(roots) && old(roots)[h.id].finalizer.None? ==>
        r.Ok? && roots == old(roots)[h.id := Root(old(roots)[h.id].handle, Some(callback))]
    {
      if h.id !in roots {
        return Err(NotRegistered);
      }
      var root := roots[h.id];
      if root.finalizer.Some? {
        return Err(AlreadyHasFinalizer(h.id));
      }
      roots := roots[h.id := Root(root.handle, Some(callback))];
      return Ok(());
    }
  }

  /** `Context`: the handles registered through it, in creation order. */
  class Context {
    const handleList: HandleList
    var handles: seq<int>

    /** Every handle of the context is registered in its list. */
    predicate Valid()
      reads this, handleList
    {
      handleList.Valid() && forall id :: id in handles ==> id in handleList.roots
    }

    constructor(list: HandleList)
      requires list.Valid()
      ensures Valid() && handleList == list && handles == []
    {
      handleList := list;
      handles := [];
    }

    /** `Context.prototype.createHandle` without an id: the handle takes
        the next id, which has not been used before, and is registered
        both in the list and in the context. */
    method CreateHandle(typ: Type, value: int) returns (h: Handle)
      requires Valid()
      modifies this, handleList
      ensures Valid()
      ensures h == Handle(old(handleList.nextId), typ, value) && h.id !in old(handleList.roots)
      ensures handleList.nextId == old(handleList.nextId) + 1
      ensures handleList.roots == old(handleList.roots)[h.id := Root(h, None)]
      ensures handles == old(handles) + [h.id]
    {
      h := Handle(handleList.nextId, typ, value);
      handleList.nextId := handleList.nextId + 1;
      handleList.roots := handleList.roots[h.id := Root(h, None)];
      handles := handles + [h.id];
    }

    /** `Context.prototype.destroyHandles`: calls the finalizers from the
        latest-created handle back to the first, then forgets the
        handles. */
    method DestroyHandles() returns (calls: seq<Call>)
      requires Valid()
      modifies this
      ensures Valid() && handles == []
      ensures calls == FinalizerCalls(old(handles), handleList.roots)
    {
      calls := [];
      var i := |handles| - 1;
      while i >= 0
        invariant -1 <= i < |handles| && handles == old(handles) && Valid()
        invariant calls == FinalizerCalls(handles[i + 1..], handleList.roots)
      {
        assert forall id :: id in handles ==> id in handleList.roots;
        assert handles[i] in handles;
        var root := handleList.roots[handles[i]];
        assert handles[i..] == [handles[i]] + handles[i + 1..];
        FinalizerCallsAppend([handles[i]], handles[i + 1..], handleList.roots);
        if root.finalizer.Some? {
          calls := calls + [Call(root.finalizer.value, handles[i])];
        }
        i := i - 1;
      }
      assert handles[0..] == handles;
      handles := [];
    }
  }
}

/** The validating parser for request messages of src/c/request.c. A
    request is a dictionary; the parser copies its handle lists and
    commands into fresh arrays element by element and gives up on the
    first element of the wrong type. */
module Request {
  import opened Ints
  import opened Wrappers
  import opened PpVar
  import VarCodec
  import opened StrToLong
  import HandleValues

  type Handle = HandleValues.Handle

  /** `struct NB_Command`; `ret` stays 0 (from `calloc`) when the message
      has no "ret". */
  datatype Command = Command(id: Int32, args: seq<Handle>, ret: Handle)

  /** `struct NB_HandleVarPair`. */
  datatype SetHandle = SetHandle(id: Handle, value: Var)

  /** `struct NB_Request`. */
  datatype Request = Request(
    id: Int32,
    getHandles: seq<Handle>,
    setHandles: seq<SetHandle>,
    destroyHandles: seq<Handle>,
    commands: seq<Command>)

  predicate AllInt32(elems: seq<Var>)
  {
    forall i :: 0 <= i < |elems| ==> elems[i].I32?
  }

  /** An array of int32 vars read as handles. */
  function Int32List(elems: seq<Var>): (r: Option<seq<Handle>>)
    ensures r.Some? <==> AllInt32(elems)
    ensures r.Some? ==> |r.value| == |elems| && forall i :: 0 <= i < |elems| ==> elems[i] == I32(r.value[i])
  {
    if AllInt32(elems) then Some(seq(|elems|, i requires 0 <= i < |elems| => elems[i].i)) else None
  }

  /** "get" and "destroy": optional, and when present an array of int32. */
  function OptionalHandleList(entries: seq<(string, Var)>, key: string): Option<seq<Handle>>
  {
    if !HasKey(entries, key) then Some([])
    else
      var v := DictGet(entries, key);
      if v.Arr? then Int32List(v.elems) else None
  }

  /** The value types a "set" entry may carry; an array must be a "long". */
  predicate SetValueOk(v: Var)
  {
    v.I32? || v.Dbl? || v.Null? || v.Str? || (v.Arr? && VarCodec.LongHalves(v).Some?)
  }

  /** One entry of "set": the key must read as a handle and the value must
      have an accepted type. */
  function SetHandleOf(entries: seq<(string, Var)>, key: string): Option<SetHandle>
  {
    var id := StringToLong(key);
    var value := DictGet(entries, key);
    if id.Some? && SetValueOk(value) then Some(SetHandle(id.value, value)) else None
  }

  predicate AllSetHandles(entries: seq<(string, Var)>, keys: seq<string>)
  {
    forall i :: 0 <= i < |keys| ==> SetHandleOf(entries, keys[i]).Some?
  }

  /** The entries of "set" in key order. */
  function SetHandles(entries: seq<(string, Var)>): Option<seq<SetHandle>>
  {
    var keys := DictKeys(entries);
    if AllSetHandles(entries, keys)
    then Some(seq(|keys|, i requires 0 <= i < |keys| && SetHandleOf(entries, keys[i]).Some? =>
      SetHandleOf(entries, keys[i]).value))
    else None
  }

  function OptionalSetHandles(entries: seq<(string, Var)>): Option<seq<SetHandle>>
  {
    if !HasKey(entries, "set") then Some([])
    else
      var v := DictGet(entries, "set");
      if v.Dict? then SetHandles(v.entries) else None
  }

  /** One element of "commands". */
  function CommandOf(v: Var): Option<Command>
  {
    if !v.Dict? || !HasKey(v.entries, "id") || !HasKey(v.entries, "args") then None
    else
      var id := DictGet(v.entries, "id");
      var args := DictGet(v.entries, "args");
      var ret := DictGet(v.entries, "ret");
      if !id.I32? || !args.Arr? || !(ret.I32? || ret.Undefined?) then None
      else match Int32List(args.elems)
        case None => None
        case Some(hs) => Some(Command(id.i, hs, if ret.I32? then ret.i else 0))
  }

  predicate AllCommands(elems: seq<Var>)
  {
    forall i :: 0 <= i < |elems| ==> CommandOf(elems[i]).Some?
  }

  function CommandList(elems: seq<Var>): Option<seq<Command>>
  {
    if AllCommands(elems)
    then Some(seq(|elems|, i requires 0 <= i < |elems| && CommandOf(elems[i]).Some? => CommandOf(elems[i]).value))
    else None
  }

  function OptionalCommands(entries: seq<(string, Var)>): Option<seq<Command>>
  {
    if !HasKey(entries, "commands") then Some([])
    else
      var v := DictGet(entries, "commands");
      if v.Arr? then CommandList(v.elems) else None
  }

  /** `nb_parse_request`: a dictionary with a positive int32 "id" whose
      optional parts all parse. */
  function RequestOf(v: Var): (r: Option<Request>)
    ensures r.Some? ==> v.Dict? && HasKey(v.entries, "id") && DictGet(v.entries, "id") == I32(r.value.id) && r.value.id > 0
  {
    if !v.Dict? || !HasKey(v.entries, "id") then None
    else
      var id := DictGet(v.entries, "id");
      if !id.I32? || id.i <= 0 then None
      else
        var gets := OptionalHandleList(v.entries, "get");
        var sets := OptionalSetHandles(v.entries);
        var destroys := OptionalHandleList(v.entries, "destroy");
        var commands := OptionalCommands(v.entries);
        if gets.None? || sets.None? || destroys.None? || commands.None? then None
        else Some(Request(id.i, gets.value, sets.value, destroys.value, commands.value))
  }

  /** The copy loop of `nb_parse_gethandles`, `nb_parse_destroyhandles`
      and of the "args" of `nb_parse_command`. */
  method ParseHandleList(elems: seq<Var>) returns (r: Option<seq<Handle>>)
    ensures r == Int32List(elems)
  {
    var handles: seq<Handle> := [];
    var i := 0;
    while i < |elems|
      invariant 0 <= i <= |elems|
      invariant |handles| == i
      invariant forall k :: 0 <= k < i ==> elems[k] == I32(handles[k])
    {
      if !elems[i].I32? {
        return None;
      }
      handles := handles + [elems[i].i];
      i := i + 1;
    }
    assert Int32List(elems).value == handles;
    return Some(handles);
  }

  /** `nb_parse_gethandles` and `nb_parse_destroyhandles`. */
  method ParseOptionalHandleList(entries: seq<(string, Var)>, key: string) returns (r: Option<seq<Handle>>)
    ensures r == OptionalHandleList(entries, key)
  {
    if !HasKey(entries, key) {
      return Some([]);
    }
    var v := DictGet(entries, key);
    if !v.Arr? {
      return None;
    }
    r := ParseHandleList(v.elems);
  }

  /** `nb_parse_sethandles`. */
  method ParseSetHandles(entries: seq<(string, Var)>) returns (r: Option<seq<SetHandle>>)
    ensures r == OptionalSetHandles(entries)
  {
    if !HasKey(entries, "set") {
      return Some([]);
    }
    var v := DictGet(entries, "set");
    if !v.Dict? {
      return None;
    }
    r := ParseSetEntries(v.entries);
  }

  /** The loop of `nb_parse_sethandles` over the keys of "set". */
  method ParseSetEntries(entries: seq<(string, Var)>) returns (r: Option<seq<SetHandle>>)
    ensures r == SetHandles(entries)
  {
    var keys := DictKeys(entries);
    var pairs: seq<SetHandle> := [];
    var i := 0;
    while i < |keys|
      invariant 0 <= i <= |keys| && |pairs| == i
      invariant ParsedPrefix(entries, keys, pairs)
    {
      var pair := ParseSetHandle(entries, keys[i]);
      if pair.None? {
        SetHandlesMissing(entries, i);
        return None;
      }
      ParsedStep(entries, keys, pairs, pair.value);
      pairs := pairs + [pair.value];
      i := i + 1;
    }
    SetHandlesAll(entries, pairs);
    return Some(pairs);
  }

  /** The pairs read so far are those of the first keys. */
  ghost predicate ParsedPrefix(entries: seq<(string, Var)>, keys: seq<string>, pairs: seq<SetHandle>)
  {
    |pairs| <= |keys| && forall k :: 0 <= k < |pairs| ==> SetHandleOf(entries, keys[k]) == Some(pairs[k])
  }

  lemma ParsedStep(entries: seq<(string, Var)>, keys: seq<string>, pairs: seq<SetHandle>, pair: SetHandle)
    requires ParsedPrefix(entries, keys, pairs) && |pairs| < |keys|
    requires SetHandleOf(entries, keys[|pairs|]) == Some(pair)
    ensures ParsedPrefix(entries, keys, pairs + [pair])
  {
    var next := pairs + [pair];
    forall k | 0 <= k < |next|
      ensures SetHandleOf(entries, keys[k]) == Some(next[k])
    {
      if k < |pairs| {
        assert next[k] == pairs[k];
      }
    }
  }

  lemma SetHandlesMissing(entries: seq<(string, Var)>, i: nat)
    requires i < |DictKeys(entries)| && SetHandleOf(entries, DictKeys(entries)[i]).None?
    ensures SetHandles(entries) == None
  {
  }

  lemma SetHandlesAll(entries: seq<(string, Var)>, pairs: seq<SetHandle>)
    requires |pairs| == |DictKeys(entries)|
    requires forall k :: 0 <= k < |pairs| ==> SetHandleOf(entries, DictKeys(entries)[k]) == Some(pairs[k])
    ensures SetHandles(entries) == Some(pairs)
  {
    var keys := DictKeys(entries);
    assert AllSetHandles(entries, keys);
    var s := SetHandles(entries).value;
    assert |s| == |pairs|;
    forall k | 0 <= k < |pairs|
      ensures s[k] == pairs[k]
    {
      assert s[k] == SetHandleOf(entries, keys[k]).value;
    }
    assert s == pairs;
  }

  /** One round of the loop of `nb_parse_sethandles`: the key must read as
      a handle and the value must have an accepted type. */
  method ParseSetHandle(entries: seq<(string, Var)>, key: string) returns (r: Option<SetHandle>)
    ensures r == SetHandleOf(entries, key)
  {
    var id := StringToLong(key);
    if id.None? {
      return None;
    }
    var value := DictGet(entries, key);
    if !SetValueOk(value) {
      return None;
    }
    return Some(SetHandle(id.value, value));
  }

  /** `nb_parse_command`. */
  method ParseCommand(v: Var) returns (r: Option<Command>)
    ensures r == CommandOf(v)
  {
    if !v.Dict? || !HasKey(v.entries, "id") || !HasKey(v.entries, "args") {
      return None;
    }
    var id := DictGet(v.entries, "id");
    var args := DictGet(v.entries, "args");
    if !id.I32? || !args.Arr? {
      return None;
    }
    var ret := DictGet(v.entries, "ret");
    if !ret.I32? && !ret.Undefined? {
      return None;
    }
    var hs := ParseHandleList(args.elems);
    if hs.None? {
      return None;
    }
    var c := Command(id.i, hs.value, 0);
    if ret.I32? {
      c := c.(ret := ret.i);
    }
    return Some(c);
  }

  /** `nb_parse_commands`. */
  method ParseCommands(entries: seq<(string, Var)>) returns (r: Option<seq<Command>>)
    ensures r == OptionalCommands(entries)
  {
    if !HasKey(entries, "commands") {
      return Some([]);
    }
    var v := DictGet(entries, "commands");
    if !v.Arr? {
      return None;
    }
    var commands: seq<Command> := [];
    var i := 0;
    while i < |v.elems|
      invariant 0 <= i <= |v.elems|
      invariant |commands| == i
      invariant forall k :: 0 <= k < i ==> CommandOf(v.elems[k]) == Some(commands[k])
    {
      var c := ParseCommand(v.elems[i]);
      if c.None? {
        return None;
      }
      commands := commands + [c.value];
      i := i + 1;
    }
    assert CommandList(v.elems).value == commands;
    return Some(commands);
  }

  /** `nb_request_create`: NULL (here `None`) on any parse failure. */
  method RequestCreate(v: Var) returns (r: Option<Request>)
    ensures r == RequestOf(v)
  {
    if !v.Dict? || !HasKey(v.entries, "id") {
      return None;
    }
    var id := DictGet(v.entries, "id");
    if !id.I32? || id.i <= 0 {
      return None;
    }
    var gets := ParseOptionalHandleList(v.entries, "get");
    if gets.None? {
      return None;
    }
    var sets := ParseSetHandles(v.entries);
    if sets.None? {
      return None;
    }
    var destroys := ParseOptionalHandleList(v.entries, "destroy");
    if destroys.None? {
      return None;
    }
    var commands := ParseCommands(v.entries);
    if commands.None? {
      return None;
    }
    return Some(Request(id.i, gets.value, sets.value, destroys.value, commands.value));
  }

  /** `nb_request_command_has_ret`. */
  function HasRet(c: Command): bool
  {
    c.ret != 0
  }

  /** A parsed command has a return handle exactly when the message gave a
      non-zero int32 "ret". */
  lemma HasRetMeans(v: Var, c: Command)
    requires CommandOf(v) == Some(c)
    ensures HasRet(c) <==> (HasKey(v.entries, "ret") && DictGet(v.entries, "ret").I32? && DictGet(v.entries, "ret").i != 0)
  {
  }

  /** The accessors `nb_request_gethandle`, `nb_request_destroyhandle`,
      `nb_request_sethandle` and `nb_request_command_arg` report the
      message's elements in the message's order. */
  lemma AccessorsKeepOrder(v: Var, r: Request)
    requires RequestOf(v) == Some(r)
    ensures HasKey(v.entries, "get") ==>
      var g := DictGet(v.entries, "get");
      g.Arr? && |r.getHandles| == |g.elems| && forall i :: 0 <= i < |g.elems| ==> g.elems[i] == I32(r.getHandles[i])
    ensures !HasKey(v.entries, "get") ==> r.getHandles == []
    ensures HasKey(v.entries, "destroy") ==>
      var d := DictGet(v.entries, "destroy");
      d.Arr? && |r.destroyHandles| == |d.elems| && forall i :: 0 <= i < |d.elems| ==> d.elems[i] == I32(r.destroyHandles[i])
    ensures HasKey(v.entries, "set") ==>
      var s := DictGet(v.entries, "set");
      s.Dict? && |r.setHandles| == |s.entries| && forall i :: 0 <= i < |s.entries| ==>
        StringToLong(s.entries[i].0) == Some(r.setHandles[i].id) && r.setHandles[i].value == DictGet(s.entries, s.entries[i].0)
    ensures HasKey(v.entries, "commands") ==>
      var cs := DictGet(v.entries, "commands");
      cs.Arr? && |r.commands| == |cs.elems| && forall i :: 0 <= i < |cs.elems| ==> CommandOf(cs.elems[i]) == Some(r.commands[i])
  {
    HandleListKept(v.entries, "get", r.getHandles);
    HandleListKept(v.entries, "destroy", r.destroyHandles);
    SetHandlesKept(v.entries, r.setHandles);
    CommandsKept(v.entries, r.commands);
  }

  lemma HandleListKept(entries: seq<(string, Var)>, key: string, hs: seq<Handle>)
    requires OptionalHandleList(entries, key) == Some(hs)
    ensures HasKey(entries, key) ==>
      var g := DictGet(entries, key);
      g.Arr? && |hs| == |g.elems| && forall i :: 0 <= i < |g.elems| ==> g.elems[i] == I32(hs[i])
    ensures !HasKey(entries, key) ==> hs == []
  {
  }

  lemma SetHandlesKept(entries: seq<(string, Var)>, sets: seq<SetHandle>)
    requires OptionalSetHandles(entries) == Some(sets)
    ensures HasKey(entries, "set") ==>
      var s := DictGet(entries, "set");
      s.Dict? && |sets| == |s.entries| && forall i :: 0 <= i < |s.entries| ==>
        StringToLong(s.entries[i].0) == Some(sets[i].id) && sets[i].value == DictGet(s.entries, s.entries[i].0)
  {
  }

  lemma CommandsKept(entries: seq<(string, Var)>, commands: seq<Command>)
    requires OptionalCommands(entries) == Some(commands)
    ensures HasKey(entries, "commands") ==>
      var cs := DictGet(entries, "commands");
      cs.Arr? && |commands| == |cs.elems| && forall i :: 0 <= i < |cs.elems| ==> CommandOf(cs.elems[i]) == Some(commands[i])
  {
  }

  /** What the JavaScript side sends for a list of handles. */
  function EncodeHandles(hs: seq<Handle>): (r: seq<Var>)
    ensures |r| == |hs|
  {
    seq(|hs|, i requires 0 <= i < |hs| => I32(hs[i]))
  }

  /** The message `$pushCommand_` builds: "ret" only for a return handle. */
  function EncodeCommand(c: Command): Var
  {
    Dict([("id", I32(c.id)), ("args", Arr(EncodeHandles(c.args)))] +
      if c.ret != 0 then [("ret", I32(c.ret))] else [])
  }

  /** A handle-to-value object: each key is the handle's decimal id. */
  function EncodeSet(sets: seq<SetHandle>): (r: seq<(string, Var)>)
    ensures |r| == |sets|
  {
    seq(|sets|, i requires 0 <= i < |sets| => (Decimal(sets[i].id), sets[i].value))
  }

  function EncodeCommands(commands: seq<Command>): (r: seq<Var>)
    ensures |r| == |commands|
  {
    seq(|commands|, i requires 0 <= i < |commands| => EncodeCommand(commands[i]))
  }

  function EncodeRequest(r: Request): Var
  {
    Dict([
      ("id", I32(r.id)),
      ("get", Arr(EncodeHandles(r.getHandles))),
      ("set", Dict(EncodeSet(r.setHandles))),
      ("destroy", Arr(EncodeHandles(r.destroyHandles))),
      ("commands", Arr(EncodeCommands(r.commands)))])
  }

  /** The requests a sender can form: a positive id, each handle set at
      most once and each value of an accepted type. */
  predicate Encodable(r: Request)
  {
    && r.id > 0
    && (forall i, j :: 0 <= i < j < |r.setHandles| ==> r.setHandles[i].id != r.setHandles[j].id)
    && (forall i :: 0 <= i < |r.setHandles| ==> SetValueOk(r.setHandles[i].value))
  }

  lemma HandlesRoundTrip(hs: seq<Handle>)
    ensures Int32List(EncodeHandles(hs)) == Some(hs)
  {
    assert AllInt32(EncodeHandles(hs));
    assert Int32List(EncodeHandles(hs)).value == hs;
  }

  lemma CommandRoundTrip(c: Command)
    ensures CommandOf(EncodeCommand(c)) == Some(c)
  {
    var e := EncodeCommand(c).entries;
    assert e[0].0 == "id" && e[1].0 == "args";
    assert HasKey(e, "id") && HasKey(e, "args");
    HandlesRoundTrip(c.args);
    if c.ret != 0 {
      assert e[2].0 == "ret";
      assert HasKey(e, "ret");
    }
  }

  lemma {:induction false} SetRoundTrip(sets: seq<SetHandle>)
    requires forall i, j :: 0 <= i < j < |sets| ==> sets[i].id != sets[j].id
    requires forall i :: 0 <= i < |sets| ==> SetValueOk(sets[i].value)
    ensures SetHandles(EncodeSet(sets)) == Some(sets)
  {
    var e := EncodeSet(sets);
    var keys := DictKeys(e);
    assert DistinctKeys(e) by {
      forall j, k | 0 <= j < k < |e| ensures e[j].0 != e[k].0 {
        if e[j].0 == e[k].0 {
          DecimalInjective(sets[j].id, sets[k].id);
        }
      }
    }
    forall i | 0 <= i < |keys|
      ensures StringToLong(keys[i]) == Some(sets[i].id)
      ensures DictGet(e, keys[i]) == sets[i].value
    {
      StringToLongRoundTrip(sets[i].id);
      DictGetDistinct(e, i);
    }
    assert AllSetHandles(e, keys);
    assert SetHandles(e).value == sets;
  }

  lemma EncodeRequestFields(r: Request)
    ensures var e := EncodeRequest(r).entries;
      && HasKey(e, "id") && HasKey(e, "get") && HasKey(e, "set") && HasKey(e, "destroy") && HasKey(e, "commands")
      && DictGet(e, "id") == I32(r.id)
      && DictGet(e, "get") == Arr(EncodeHandles(r.getHandles))
      && DictGet(e, "set") == Dict(EncodeSet(r.setHandles))
      && DictGet(e, "destroy") == Arr(EncodeHandles(r.destroyHandles))
      && DictGet(e, "commands") == Arr(EncodeCommands(r.commands))
  {
    var e := EncodeRequest(r).entries;
    assert e[0].0 == "id" && e[1].0 == "get" && e[2].0 == "set" && e[3].0 == "destroy" && e[4].0 == "commands";
    assert DistinctKeys(e);
    DictGetDistinct(e, 0);
    DictGetDistinct(e, 1);
    DictGetDistinct(e, 2);
    DictGetDistinct(e, 3);
    DictGetDistinct(e, 4);
  }

  lemma CommandsRoundTrip(commands: seq<Command>)
    ensures CommandList(EncodeCommands(commands)) == Some(commands)
  {
    var cs := EncodeCommands(commands);
    forall i | 0 <= i < |cs| ensures CommandOf(cs[i]) == Some(commands[i]) {
      CommandRoundTrip(commands[i]);
    }
    assert AllCommands(cs);
    assert CommandList(cs).value == commands;
  }

  lemma ListFieldsRoundTrip(r: Request)
    ensures OptionalHandleList(EncodeRequest(r).entries, "get") == Some(r.getHandles)
    ensures OptionalHandleList(EncodeRequest(r).entries, "destroy") == Some(r.destroyHandles)
  {
    EncodeRequestFields(r);
    HandlesRoundTrip(r.getHandles);
    HandlesRoundTrip(r.destroyHandles);
  }

  lemma SetFieldRoundTrip(r: Request)
    requires Encodable(r)
    ensures OptionalSetHandles(EncodeRequest(r).entries) == Some(r.setHandles)
  {
    EncodeRequestFields(r);
    SetRoundTrip(r.setHandles);
  }

  lemma CommandsFieldRoundTrip(r: Request)
    ensures OptionalCommands(EncodeRequest(r).entries) == Some(r.commands)
  {
    EncodeRequestFields(r);
    CommandsRoundTrip(r.commands);
  }

  /** The parser accepts every request the sender can form and returns it
      unchanged. */
  lemma RequestRoundTrip(r: Request)
    requires Encodable(r)
    ensures RequestOf(EncodeRequest(r)) == Some(r)
  {
    EncodeRequestFields(r);
    ListFieldsRoundTrip(r);
    SetFieldRoundTrip(r);
    CommandsFieldRoundTrip(r);
  }
}

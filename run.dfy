/** The request execution of src/c/run.c: register the "set" values, run
    the commands in order, read back the "get" handles, destroy the
    "destroy" handles and report the first failed command. The commands
    themselves are generated code, so the dispatcher is a parameter. */
module Run {
  import opened Ints
  import opened Wrappers
  import opened PpVar
  import VarCodec
  import opened HandleValues
  import opened HandleMap
  import opened Request

  /** A value the generated code can hand to a `nb_handle_register_*`
      function. */
  type TypedValue = v: Value | WellTyped(v) witness VoidPtr(0)

  /** What a generated command reports: failure, or success with the value
      it produced (none for a function returning void). */
  datatype Outcome = Failed | Done(result: Option<TypedValue>)

  /** `nb_request_command_run`: the generated dispatcher, as a function of
      the command and the current handle map. */
  type Dispatcher = (Command, seq<Entry>) -> Outcome

  /** The response dictionary `{"id", "values", "error"}`. */
  datatype Response = Response(id: Int32, values: seq<Var>, error: Option<int>)

  /** `strncmp(tag, name, tag_length) == 0`, with `tag_length` the tag's
      length: the characters are compared in turn, and the comparison
      stops with "equal" after `tag_length` of them or at a NUL that both
      strings hold at the same place; past its end, the C string `name`
      reads as NUL. */
  predicate TagMatches(tag: string, name: string)
  {
    if |tag| == 0 then true
    else if |name| == 0 then tag[0] == '\0'
    else tag[0] == name[0] && (name[0] == '\0' || TagMatches(tag[1..], name[1..]))
  }

  /** For a name without NUL, the tag matches when it is a prefix of the
      name, or when it is the whole name followed by a NUL and anything
      after it. */
  lemma {:induction false} TagMatchesMeans(tag: string, name: string)
    requires '\0' !in name
    ensures TagMatches(tag, name) <==>
      (|tag| <= |name| && tag == name[..|tag|]) ||
      (|tag| > |name| && tag[..|name|] == name && tag[|name|] == '\0')
  {
    if |tag| != 0 && |name| != 0 {
      assert name[0] in name;
      assert '\0' !in name[1..] by {
        forall k | 0 <= k < |name[1..]| ensures name[1..][k] != '\0' {
          assert name[1..][k] == name[k + 1];
          assert name[k + 1] in name;
        }
      }
      TagMatchesMeans(tag[1..], name[1..]);
      if tag[0] == name[0] {
        assert tag == [tag[0]] + tag[1..];
        assert name == [name[0]] + name[1..];
      }
    }
  }

  /** A "long" tag followed by a NUL takes the "long" branch, where the
      int64 decoder refuses it for its length, so the "set" fails. */
  lemma LongNulTagFails()
    ensures TagMatches("long\0", VarCodec.LONG_TAG)
    ensures SetValueOf(Arr([Str("long\0"), I32(0), I32(0)])).Err?
  {
    assert VarCodec.TaggedArray(Arr([Str("long\0"), I32(0), I32(0)])) == Some(("long\0", 3));
  }

  /** How `nb_request_set_handles` turns one "set" value into a map entry:
      `Err` when the request fails, `Ok(None)` when the value is skipped.
      A "function"-tagged array is skipped here: its registration goes
      through `nb_var_func_id` and `nb_handle_register_func_id`, which are
      not part of this model. */
  function SetValueOf(v: Var): Result<Option<TypedValue>, ()>
  {
    match v
    case I32(i) => Ok(Some(IntValue(CType.INT32, i)))
    case Dbl(d) => Ok(Some(DoubleValue(d)))
    case Str(_) => Ok(Some(VarValue(v)))
    case Null => Ok(Some(VoidPtr(0)))
    case Arr(_) =>
      (match VarCodec.TaggedArray(v)
       case None => Err(())
       case Some((tag, _)) =>
         if TagMatches(tag, VarCodec.LONG_TAG) then
           (match VarCodec.Int64(v)
            case None => Err(())
            case Some(x) => Ok(Some(IntValue(CType.INT64, x))))
         else Ok(None))
    case _ => Err(())
  }

  /** Registering `value` under `h`, which fails for a handle in use. */
  function RegisterStep(s: seq<Entry>, h: Handle, value: Value): Option<seq<Entry>>
  {
    if h in Keys(s) then None else Some(InsertSorted(s, Entry(h, value)))
  }

  function SetStep(s: seq<Entry>, sh: SetHandle): Option<seq<Entry>>
  {
    match SetValueOf(sh.value)
    case Err(_) => None
    case Ok(None) => Some(s)
    case Ok(Some(value)) => RegisterStep(s, sh.id, value)
  }

  /** `nb_request_set_handles`: registers the values in order and stops at
      the first failure, keeping what it registered before. */
  function SetAll(s: seq<Entry>, sets: seq<SetHandle>): (bool, seq<Entry>)
    decreases |sets|
  {
    if |sets| == 0 then (true, s)
    else match SetStep(s, sets[0])
      case None => (false, s)
      case Some(s') => SetAll(s', sets[1..])
  }

  /** One command: the dispatcher's value, if any, is registered under the
      command's return handle, which must then be given and unused. */
  function RunStep(s: seq<Entry>, c: Command, run: Dispatcher): Option<seq<Entry>>
  {
    match run(c, s)
    case Failed => None
    case Done(None) => Some(s)
    case Done(Some(value)) => if !HasRet(c) then None else RegisterStep(s, c.ret, value)
  }

  /** `nb_request_run_commands` from command index `base` on: success with
      failed index -1, or the index of the first failing command. */
  function RunAll(s: seq<Entry>, cs: seq<Command>, run: Dispatcher, base: nat): (r: (bool, int, seq<Entry>))
    ensures r.0 <==> r.1 == -1
    ensures !r.0 ==> base <= r.1 < base + |cs|
    decreases |cs|
  {
    if |cs| == 0 then (true, -1, s)
    else match RunStep(s, cs[0], run)
      case None => (false, base, s)
      case Some(s') => RunAll(s', cs[1..], run, base + 1)
  }

  /** The var `nb_handle_convert_to_var` yields for one "get" handle, or
      undefined when it fails. */
  function GetValue(s: seq<Entry>, h: Handle): Var
  {
    match Lookup(s, h)
    case None => Undefined
    case Some(value) =>
      match ConvertToVar(h, value)
      case None => Undefined
      case Some(v) => v
  }

  predicate Convertible(s: seq<Entry>, h: Handle)
  {
    Lookup(s, h).Some? && ConvertToVar(h, Lookup(s, h).value).Some?
  }

  function GetValues(s: seq<Entry>, gets: seq<Handle>): (r: seq<Var>)
    ensures |r| == |gets|
  {
    seq(|gets|, i requires 0 <= i < |gets| => GetValue(s, gets[i]))
  }

  /** `nb_request_run`: the result, the response (none when the request
      does not parse) and the handle map afterwards. */
  function RunSpec(s: seq<Entry>, v: Var, run: Dispatcher): (bool, Option<Response>, seq<Entry>)
  {
    match RequestOf(v)
    case None => (false, None, s)
    case Some(r) =>
      var (setOk, s1) := SetAll(s, r.setHandles);
      if !setOk then (false, Some(Response(r.id, [], Some(-1))), s1)
      else
        var (commandsOk, failed, s2) := RunAll(s1, r.commands, run, 0);
        var getOk := forall i :: 0 <= i < |r.getHandles| ==> Convertible(s2, r.getHandles[i]);
        var result := commandsOk && getOk;
        (result,
         Some(Response(r.id, GetValues(s2, r.getHandles), if result then None else Some(failed))),
         RemoveAll(s2, r.destroyHandles))
  }

  /** The response as the var posted back; undefined when there is none. */
  function ResponseVar(response: Option<Response>): Var
  {
    match response
    case None => Undefined
    case Some(Response(id, values, error)) =>
      Dict([("id", I32(id)), ("values", Arr(values))] +
        match error
        case None => []
        case Some(e) => [("error", I32(ToInt32(e)))])
  }

  // Properties of the specification.

  lemma {:induction false} SetAllSorted(s: seq<Entry>, sets: seq<SetHandle>)
    requires Sorted(s)
    ensures Sorted(SetAll(s, sets).1)
    decreases |sets|
  {
    if |sets| > 0 {
      match SetStep(s, sets[0])
      case None =>
      case Some(s') =>
        if s' != s { InsertSortedSorted(s, Entry(sets[0].id, SetValueOf(sets[0].value).value.value)); }
        SetAllSorted(s', sets[1..]);
    }
  }

  lemma {:induction false} RunAllSorted(s: seq<Entry>, cs: seq<Command>, run: Dispatcher, base: nat)
    requires Sorted(s)
    ensures Sorted(RunAll(s, cs, run, base).2)
    decreases |cs|
  {
    if |cs| > 0 {
      match RunStep(s, cs[0], run)
      case None =>
      case Some(s') =>
        if s' != s { InsertSortedSorted(s, Entry(cs[0].ret, run(cs[0], s).result.value)); }
        RunAllSorted(s', cs[1..], run, base + 1);
    }
  }

  /** Commands run in index order: when command `k` fails, every command
      before it succeeded, in sequence, and the map is what they left. */
  lemma {:induction false} RunAllStopsAtFirstFailure(s: seq<Entry>, cs: seq<Command>, run: Dispatcher, base: nat)
    requires !RunAll(s, cs, run, base).0
    ensures var k := RunAll(s, cs, run, base).1 - base;
      0 <= k < |cs|
      && RunAll(s, cs[..k], run, base).0
      && RunStep(RunAll(s, cs[..k], run, base).2, cs[k], run).None?
      && RunAll(s, cs, run, base).2 == RunAll(s, cs[..k], run, base).2
    decreases |cs|
  {
    match RunStep(s, cs[0], run)
    case None =>
      assert cs[..0] == [];
    case Some(s') =>
      RunAllStopsAtFirstFailure(s', cs[1..], run, base + 1);
      var k := RunAll(s, cs, run, base).1 - base;
      assert cs[..k][0] == cs[0] && cs[..k][1..] == cs[1..][..k - 1];
      assert cs[k] == cs[1..][k - 1];
  }

  function HandleSet(hs: seq<Handle>): set<Handle>
  {
    set i | 0 <= i < |hs| :: hs[i]
  }

  lemma {:induction false} RemoveAllKeys(s: seq<Entry>, hs: seq<Handle>)
    requires Sorted(s)
    ensures Sorted(RemoveAll(s, hs))
    ensures Keys(RemoveAll(s, hs)) == Keys(s) - HandleSet(hs)
    decreases |hs|
  {
    if |hs| > 0 {
      RemoveSorted(s, hs[0]);
      RemoveAllKeys(Remove(s, hs[0]), hs[1..]);
      assert HandleSet(hs) == {hs[0]} + HandleSet(hs[1..]) by {
        forall x | x in HandleSet(hs) ensures x in {hs[0]} + HandleSet(hs[1..]) {
          var i :| 0 <= i < |hs| && hs[i] == x;
          if i > 0 { assert hs[1..][i - 1] == x; }
        }
      }
    }
  }

  /** A request that does not parse changes nothing and gets no response;
      one whose "set" fails runs no command, reads and destroys nothing and
      reports failed index -1. */
  lemma EarlyFailure(s: seq<Entry>, v: Var, run: Dispatcher)
    ensures RequestOf(v).None? ==> RunSpec(s, v, run) == (false, None, s)
    ensures RequestOf(v).Some? && !SetAll(s, RequestOf(v).value.setHandles).0 ==>
      RunSpec(s, v, run) == (false, Some(Response(RequestOf(v).value.id, [], Some(-1))), SetAll(s, RequestOf(v).value.setHandles).1)
  {
  }

  /** The response names a failed command index exactly when the request
      failed; the index is that of the first failing command, or -1 when
      only reading back a handle failed. */
  lemma ErrorIffFailure(s: seq<Entry>, v: Var, run: Dispatcher)
    requires RunSpec(s, v, run).1.Some?
    ensures RunSpec(s, v, run).1.value.error.Some? <==> !RunSpec(s, v, run).0
    ensures RequestOf(v).Some?
    ensures var r := RequestOf(v).value;
      var (setOk, s1) := SetAll(s, r.setHandles);
      setOk && RunSpec(s, v, run).1.value.error.Some? ==>
        RunSpec(s, v, run).1.value.error.value == RunAll(s1, r.commands, run, 0).1
        && (RunAll(s1, r.commands, run, 0).0 ==> RunSpec(s, v, run).1.value.error.value == -1)
  {
  }

  /** Every "get" handle is read, in order, after the commands and before
      any destruction; a handle both read and destroyed is reported with
      its value and is gone afterwards. */
  lemma GetBeforeDestroy(s: seq<Entry>, v: Var, run: Dispatcher)
    requires Sorted(s) && RequestOf(v).Some?
    requires SetAll(s, RequestOf(v).value.setHandles).0
    ensures var r := RequestOf(v).value;
      var s2 := RunAll(SetAll(s, r.setHandles).1, r.commands, run, 0).2;
      && RunSpec(s, v, run).1.value.values == GetValues(s2, r.getHandles)
      && (forall i :: 0 <= i < |r.getHandles| ==> RunSpec(s, v, run).1.value.values[i] == GetValue(s2, r.getHandles[i]))
      && Sorted(RunSpec(s, v, run).2)
      && (forall i :: 0 <= i < |r.destroyHandles| ==> r.destroyHandles[i] !in Keys(RunSpec(s, v, run).2))
  {
    var r := RequestOf(v).value;
    SetAllSorted(s, r.setHandles);
    var s1 := SetAll(s, r.setHandles).1;
    RunAllSorted(s1, r.commands, run, 0);
    var s2 := RunAll(s1, r.commands, run, 0).2;
    RemoveAllKeys(s2, r.destroyHandles);
  }

  // The imperative run over the handle table.

  /** The tagged-array branch of one step of `nb_request_set_handles`. */
  method SetTagged(table: HandleTable, sh: SetHandle) returns (ok: bool)
    requires table.Valid() && sh.value.Arr?
    modifies table, table.pairs
    ensures table.Valid()
    ensures ok <==> SetStep(old(table.Contents()), sh).Some?
    ensures ok ==> table.Contents() == SetStep(old(table.Contents()), sh).value
    ensures !ok ==> table.Contents() == old(table.Contents())
    ensures table.pairs == old(table.pairs) || fresh(table.pairs)
  {
    var tagged := VarCodec.TaggedArray(sh.value);
    if tagged.None? {
      return false;
    }
    if TagMatches(tagged.value.0, VarCodec.LONG_TAG) {
      var num := VarCodec.Int64(sh.value);
      if num.None? {
        return false;
      }
      ok := table.RegisterInt(sh.id, CType.INT64, num.value);
    } else {
      ok := true;
    }
  }

  /** One step of `nb_request_set_handles`. */
  method SetHandle(table: HandleTable, sh: SetHandle) returns (ok: bool)
    requires table.Valid()
    modifies table, table.pairs
    ensures table.Valid()
    ensures ok <==> SetStep(old(table.Contents()), sh).Some?
    ensures ok ==> table.Contents() == SetStep(old(table.Contents()), sh).value
    ensures !ok ==> table.Contents() == old(table.Contents())
    ensures table.pairs == old(table.pairs) || fresh(table.pairs)
  {
    var v := sh.value;
    match v {
      case I32(i) =>
        ok := table.RegisterInt(sh.id, CType.INT32, i);
      case Dbl(d) =>
        ok := table.Register(sh.id, DoubleValue(d));
      case Str(_) =>
        ok := table.RegisterVar(sh.id, v);
      case Null =>
        ok := table.Register(sh.id, VoidPtr(0));
      case Arr(_) =>
        ok := SetTagged(table, sh);
      case _ =>
        ok := false;
    }
  }

  /** `nb_request_set_handles`. */
  method SetHandles(table: HandleTable, sets: seq<SetHandle>) returns (ok: bool)
    requires table.Valid()
    modifies table, table.pairs
    ensures table.Valid()
    ensures (ok, table.Contents()) == SetAll(old(table.Contents()), sets)
    ensures table.pairs == old(table.pairs) || fresh(table.pairs)
  {
    var i := 0;
    while i < |sets|
      invariant 0 <= i <= |sets| && table.Valid()
      invariant SetAll(table.Contents(), sets[i..]) == SetAll(old(table.Contents()), sets)
      invariant table.pairs == old(table.pairs) || fresh(table.pairs)
    {
      assert sets[i..][1..] == sets[i + 1..];
      var stepOk := SetHandle(table, sets[i]);
      if !stepOk {
        return false;
      }
      i := i + 1;
    }
    return true;
  }

  /** `nb_request_command_run` followed by the registration of its result
      in the generated code. */
  method RunCommand(table: HandleTable, c: Command, run: Dispatcher) returns (ok: bool)
    requires table.Valid()
    modifies table, table.pairs
    ensures table.Valid()
    ensures ok <==> RunStep(old(table.Contents()), c, run).Some?
    ensures ok ==> table.Contents() == RunStep(old(table.Contents()), c, run).value
    ensures !ok ==> table.Contents() == old(table.Contents())
    ensures table.pairs == old(table.pairs) || fresh(table.pairs)
  {
    var outcome := run(c, table.Contents());
    match outcome {
      case Failed =>
        ok := false;
      case Done(None) =>
        ok := true;
      case Done(Some(value)) =>
        if !HasRet(c) {
          ok := false;
        } else {
          ok := table.Register(c.ret, value);
        }
    }
  }

  /** `nb_request_run_commands`. */
  method RunCommands(table: HandleTable, cs: seq<Command>, run: Dispatcher) returns (ok: bool, failed: int)
    requires table.Valid()
    modifies table, table.pairs
    ensures table.Valid()
    ensures (ok, failed, table.Contents()) == RunAll(old(table.Contents()), cs, run, 0)
    ensures table.pairs == old(table.pairs) || fresh(table.pairs)
  {
    var i := 0;
    while i < |cs|
      invariant 0 <= i <= |cs| && table.Valid()
      invariant RunAll(table.Contents(), cs[i..], run, i) == RunAll(old(table.Contents()), cs, run, 0)
      invariant table.pairs == old(table.pairs) || fresh(table.pairs)
    {
      assert cs[i..][1..] == cs[i + 1..];
      var stepOk := RunCommand(table, cs[i], run);
      if !stepOk {
        return false, i;
      }
      i := i + 1;
    }
    return true, -1;
  }

  /** `nb_request_get_handles`: every handle is tried; a failure leaves an
      undefined value and makes the result false. */
  method GetHandles(table: HandleTable, gets: seq<Handle>) returns (ok: bool, values: seq<Var>)
    requires table.Valid()
    ensures values == GetValues(table.Contents(), gets)
    ensures ok <==> forall i :: 0 <= i < |gets| ==> Convertible(table.Contents(), gets[i])
  {
    ok := true;
    values := [];
    var i := 0;
    while i < |gets|
      invariant 0 <= i <= |gets| && |values| == i
      invariant forall k :: 0 <= k < i ==> values[k] == GetValue(table.Contents(), gets[k])
      invariant ok <==> forall k :: 0 <= k < i ==> Convertible(table.Contents(), gets[k])
    {
      var converted := table.ToVar(gets[i]);
      var value := Undefined;
      if converted.None? {
        ok := false;
      } else {
        value := converted.value;
      }
      values := ArraySet(values, i, value);
      i := i + 1;
    }
  }

  /** `nb_request_run`: returns the result and the response var. */
  method RequestRun(table: HandleTable, v: Var, run: Dispatcher) returns (result: bool, response: Var)
    requires table.Valid()
    modifies table, table.pairs
    ensures table.Valid()
    ensures result == RunSpec(old(table.Contents()), v, run).0
    ensures response == ResponseVar(RunSpec(old(table.Contents()), v, run).1)
    ensures table.Contents() == RunSpec(old(table.Contents()), v, run).2
  {
    var request := RequestCreate(v);
    if request.None? {
      return false, Undefined;
    }
    var r := request.value;
    var setOk := SetHandles(table, r.setHandles);
    if !setOk {
      return false, ResponseVar(Some(Response(r.id, [], Some(-1))));
    }
    result := true;
    var commandsOk, failed := RunCommands(table, r.commands, run);
    if !commandsOk {
      result := false;
    }
    var getOk, values := GetHandles(table, r.getHandles);
    if !getOk {
      result := false;
    }
    table.DestroyMany(r.destroyHandles);
    response := ResponseVar(Some(Response(r.id, values, if result then None else Some(failed))));
  }
}

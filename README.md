# naclbind in Dafny

naclbind generates JavaScript bindings for C libraries running in a Native
Client (NaCl) plugin. A Python generator reads C headers through clang,
builds a graph of the C types it meets, and expands templates into C glue
code and JavaScript. At run time the JavaScript side describes each call
as a request message of handles and commands. The native side parses the
request, registers the values it carries in a sorted handle map, runs the
commands, and sends the results back.

This project models the core of all three parts and proves what each part
promises.

The generator (Python):

- `GenTypes` (bin/gen_types.py):
  - qualifiers, primitive codes and the type tree;
  - the mangled name of a type, proved to read back as the type's shape;
  - the C spelling of a type, and anonymous tag names;
  - the memo that interns clang types, with each node entered before its children.
- `Gen` (bin/gen.py):
  - the acceptance rule for declarations;
  - the clang argument transforms, with parse and unparse inverse to each other;
  - the `--remap` option, and the removal of `STRIP_START`/`STRIP_END` regions.
- `GenCollector` (bin/gen.py):
  - the `Collector` class: function ids, the two bucket dicts and first-wins enums;
  - the post-order list of types, with children before parents.
- `StrOrder`: the order of the `Sorted*` iterators.
- `HelperNames` and `HelperTypes` (py/helper.py):
  - identifier spellings and the id generator;
  - the type registry, in which types of equal structure share one id;
  - the printf conversions.
- `EasyTemplate`, `TemplateScan` and `TemplateFormat` (py/easy_template.py):
  - the template compiler;
  - the `{{expr}}` scanner;
  - what the generated Python writes when it runs.

The JavaScript runtime:

- `CTypes`, `TypeCasts` and `Overload` (src/js/naclbind.js): qualifiers, typedef removal, compatibility, the cast-rank lattice and overload resolution.
- `JsLong` and `LongShifts`: the 64-bit `Long` on two 32-bit halves. Every operation is proved against the 64-bit integer the halves stand for.
- `JsHandles`: handle ids and finalizers.
- `DistTypes` (dist/naclbind.js):
  - the type registry, with unique ids, names and structures;
  - the integer type of a number literal and the primitive coercion rules;
  - struct layout and the command list.

The native runtime (C):

- `HandleMap` and `HandleValues` (src/c/handle.c):
  - the sorted array of (handle, object) pairs, searched by bisection, with its capacity doubling;
  - the range-checked typed getters;
  - the conversion back to a `PP_Var`.
- `Request` and `StrToLong` (src/c/request.c): the validating request parser and its accessors. Each parse is proved to invert the message it reads.
- `VarCodec`, `PpVar` and `Ints` (src/c/var.c): the scalar decoders, tagged arrays, the `["long", low, high]` encoding, and fixed-width integers.
- `Run` (src/c/run.c): set, run, get, then destroy, with the first failed command reported.
- `MessageQueue` (src/c/queue.c): the 256-slot circular FIFO.

`Wrappers` holds Option and Result. Where the source changes state in place, the model keeps that form:

- the handle map is a class over an array;
- the queue is a class over a fixed array;
- the collector, the registries, the id generators and the interning memo are classes whose methods state their new state;
- the loops of the request parser, the executor and the template compiler are methods with invariants.

The pure parts are functions with lemmas.

## Model

| member | source | states |
|---|---|---|
| Ints.Convert | src/c/var.c:184-236 | the narrowing conversions of the scalar decoders always give a value of the target width and signedness |
| Ints.ConvertFits | src/c/var.c:184-236 | a value the target type can hold passes through a conversion unchanged |
| Ints.Uint64ThroughInt64 | src/c/var.c:262-270 | reading a 64-bit pattern as int64 and casting back to uint64 is lossless |
| PpVar.DictGet | src/c/var.c:109-115 | a missing key reads as undefined; a present key reads as a value stored under it |
| PpVar.DictKeys | src/c/var.c:139-142 | the key list has one entry per dictionary entry, in order |
| PpVar.DictGetDistinct | src/c/var.c:109-115 | with distinct keys every key reads back its own value |
| PpVar.ArraySet | src/c/var.c:98-103 | setting an index stores the value there, keeps every other element and grows the array to cover the index |
| VarCodec.TaggedArray | src/c/var.c:301-331 | succeeds exactly for an array of length at least one whose first element is a string, yielding that tag and the length |
| VarCodec.TaggedArrayCheckMeans | src/c/var.c:333-361 | the check holds exactly when the var is an array of the expected length whose tag is the expected string |
| VarCodec.Int64Create | src/c/var.c:174-182 | the three successive array sets build the "long" tagged array of the low and high halves, which passes the tagged-array check |
| VarCodec.DecodeNarrow | src/c/var.c:184-236 | the scalar decoders succeed exactly on INT32 vars and give a value of the target C type |
| VarCodec.DecodeNarrowExact | src/c/var.c:184-236 | a stored value the target type can hold is decoded unchanged |
| VarCodec.LongHalves | src/c/var.c:238-256 | the int64 decoder's checks pass exactly for a "long" array of three elements with INT32 halves, and yield the high and low halves |
| VarCodec.Uint64 | src/c/var.c:262-270 | (corrected reading) the uint64 decoder succeeds exactly when the int64 decoder does, and decodes through the corrected `VarCodec.Int64` |
| VarCodec.CombineHalves | src/c/var.c:174-182 | the two 32-bit halves written by the encoder put together give back the value |
| VarCodec.Int64RoundTrip | src/c/var.c:174-260 | decoding what the encoder builds gives back every 64-bit integer (corrected combination of the halves) |
| VarCodec.Uint64RoundTrip | src/c/var.c:262-270 | the same round trip for every unsigned 64-bit value cast to int64 first |
| VarCodec.CombineAsWrittenNegative | src/c/var.c:258 | as written, a negative low half is sign-extended over the upper word, so the result is the low half alone |
| VarCodec.Int64AsWrittenRoundTrip | src/c/var.c:258 | as written, the round trip holds exactly when the low 32 bits read as a non-negative int32 or the value lies in [-2^31, 0) |
| VarCodec.Int64AsWrittenCounterexample | src/c/var.c:258 | as written, 2^31 is encoded and decoded back as -2^31 |
| StrToLong.Strtol | src/c/request.c:86-87 | the C library conversion stops within the string, always gives a value within the range of `long`, and gives 0 without a range error when no digits were read |
| StrToLong.Digits | src/c/request.c:77-89 | the decimal spelling of a non-negative number is a non-empty run of digits whose value is that number |
| StrToLong.StringToLong | src/c/request.c:77-89 | a key is accepted only when the whole string is one in-range decimal number, which is the value returned (corrected reading) |
| StrToLong.StrtolDecimal | src/c/request.c:77-89 | the conversion reads back exactly the decimal text written for every `long`, consuming all of it |
| StrToLong.DecimalShort | src/c/request.c:78 | the decimal text of a handle is at most 11 characters, well inside the 32-character buffer |
| StrToLong.StringToLongRoundTrip | src/c/request.c:77-89 | the handle keys the JavaScript side sends are read back as the handles, by the code as written and by the corrected reading |
| StrToLong.DecimalInjective | src/c/request.c:77-89 | two different handles never share a key |
| StrToLong.AsWrittenAgrees | src/c/request.c:82 | on non-empty keys of at most 32 characters the code as written and the corrected reading agree |
| StrToLong.AsWrittenTruncates | src/c/request.c:82 | as written, the 33-character key of 32 zeros and a one is cut to 32 characters and read as handle 0 instead of 1 |
| StrToLong.AsWrittenAcceptsEmpty | src/c/request.c:82-88 | as written, the empty key is accepted and read as handle 0; the corrected reading rejects it |
| Request.Int32List | src/c/request.c:197-234 | a handle list parses exactly when every element is an int32 var, giving those values in order |
| Request.RequestOf | src/c/request.c:165-195 | a parsed request comes from a dictionary whose "id" is a positive int32, which is the request's id |
| Request.ParseHandleList | src/c/request.c:197-234 | the copy loop yields the same handles as the list reading, or fails on the same non-int32 element |
| Request.ParseOptionalHandleList | src/c/request.c:197-234 | the "get" and "destroy" parsers agree with the optional list reading: absent gives no handles |
| Request.ParseSetHandles | src/c/request.c:236-309 | (corrected reading) the "set" parser agrees with the set reading: absent gives none, a non-dictionary fails |
| Request.ParseSetEntries | src/c/request.c:254-302 | (corrected reading) the loop over the keys of "set" yields every pair, or fails at the first bad key or value |
| Request.SetHandlesMissing | src/c/request.c:254-302 | one bad key or value makes the whole "set" fail |
| Request.SetHandlesAll | src/c/request.c:254-302 | when every key and value is accepted the pairs come out in key order |
| Request.ParseSetHandle | src/c/request.c:259-296 | (corrected reading) one key is accepted exactly when it reads as a handle and its value is int32, double, null, string or a valid "long" array |
| Request.ParseCommand | src/c/request.c:386-447 | the command parser agrees with the command reading: a dictionary with int32 "id", an int32 array "args" and an int32 or absent "ret" |
| Request.ParseCommands | src/c/request.c:349-384 | the commands parser agrees with the commands reading, failing on the first bad command |
| Request.RequestCreate | src/c/request.c:111-119 | creation gives no request on any parse failure, and the parsed request otherwise |
| Request.HasRetMeans | src/c/request.c:520-525 | a command has a return handle exactly when the message gave a non-zero int32 "ret" |
| Request.AccessorsKeepOrder | src/c/request.c:449-531 | the accessors return the message's handles, pairs and commands in the message's order, and none for an absent key |
| Request.HandlesRoundTrip | src/c/request.c:197-234 | a list of handles as the JavaScript side sends it parses back to the same handles |
| Request.CommandRoundTrip | src/c/request.c:386-447 | an encoded command parses back to the same command |
| Request.SetRoundTrip | src/c/request.c:236-309 | an encoded handle-to-value object parses back to the same pairs |
| Request.CommandsRoundTrip | src/c/request.c:349-384 | an encoded command list parses back to the same commands |
| Request.RequestRoundTrip | src/c/request.c:111-447 | the parser accepts every request the sender can form and returns it unchanged |
| Run.RunAll | src/c/run.c:259-274 | running the commands succeeds with failed index -1, or fails with the index of a command of the request |
| Run.GetValues | src/c/run.c:276-299 | one response value per requested handle |
| Run.SetAllSorted | src/c/run.c:148-257 | registering the "set" values keeps the handle table sorted by handle |
| Run.RunAllSorted | src/c/run.c:259-274 | running commands keeps the handle table sorted by handle |
| Run.RunAllStopsAtFirstFailure | src/c/run.c:265-271 | commands run in index order; at the reported failure every earlier command succeeded, and the table is what they left |
| Run.RemoveAllKeys | src/c/run.c:301-311 | destroying the requested handles removes exactly those handles from the table and keeps it sorted |
| Run.EarlyFailure | src/c/run.c:98-112 | an unparsable request gives no response and leaves the table alone; a failing "set" gives a response with error index -1 and runs nothing |
| Run.ErrorIffFailure | src/c/run.c:114-145 | the response carries an error exactly when the run failed, and its index is the failing command's, or -1 when only reading back a handle failed |
| Run.GetBeforeDestroy | src/c/run.c:121-128 | handles are read back after all commands ran and before the destroy list is applied, and every destroyed handle is gone afterwards |
| Run.SetHandle | src/c/run.c:148-257 | (corrected reading) one "set" pair is registered in the table as the specification step says, or the table is left unchanged on failure |
| Run.SetTagged | src/c/run.c:184-229 | a tagged array fails on a bad tag or a bad "long" array, registers a "long" as an int64 under an unused handle, and is otherwise skipped, as the specification step says |
| Run.TagMatchesMeans | src/c/run.c:193 | `strncmp(tag, "long", tag_length) == 0` holds exactly when the tag is a prefix of "long" or is "long" followed by a NUL and anything after it |
| Run.LongNulTagFails | src/c/run.c:193-200 | the tag "long\0" takes the "long" branch, where the int64 decoder refuses it for its length (src/c/var.c:351), so the "set" fails |
| Run.SetHandles | src/c/run.c:148-257 | (corrected reading) the table after registering the "set" pairs is what the specification gives, failing as it does |
| Run.RunCommand | src/c/run.c:31-33 | one command updates the table as the specification step says, or leaves it unchanged on failure |
| Run.RunCommands | src/c/run.c:259-274 | the loop stops at the first failing command with that index and leaves the table the specification gives |
| Run.GetHandles | src/c/run.c:276-299 | every handle is tried; the values are those of the specification and the result is true exactly when every handle converts |
| Run.RequestRun | src/c/run.c:90-146 | the result, the response var and the new table are those of the specification of a whole request |
| MessageQueue.WindowPush | src/c/queue.c:76-78 | writing the slot just past the queued window extends it by that message |
| MessageQueue.WindowPop | src/c/queue.c:105-107 | a non-empty window is its first slot followed by the window one place further round the ring |
| MessageQueue.Queue.constructor | src/c/queue.c:32-41 | a fresh queue is empty |
| MessageQueue.Queue.IsEmpty | src/c/queue.c:47 | true exactly when no message is queued |
| MessageQueue.Queue.IsFull | src/c/queue.c:53 | true exactly when 256 messages are queued |
| MessageQueue.Queue.Enqueue | src/c/queue.c:68-94 | a full queue drops the message and is unchanged; otherwise the message joins the end |
| MessageQueue.Queue.Dequeue | src/c/queue.c:96-112 | the oldest message leaves the queue and is returned |
| HandleValues.GetIntIffFits | src/c/handle.c:318-518 | the check table of the integer getters is exactly a range check: an integer getter succeeds iff the stored value fits the target type, and returns it unchanged |
| HandleValues.GetRealIff | src/c/handle.c:495-518 | a float or double getter accepts a stored integer exactly when its magnitude is within 2^24-1 or 2^53-1 |
| HandleValues.UpToNul | src/c/handle.c:768-781 | the string kept for a var handle is the var's text up to its first NUL |
| HandleValues.GetPointerFrom | src/c/handle.c:783-829 | the pointer getters succeed exactly on void pointers and on string vars |
| HandleValues.GetVarFrom | src/c/handle.c:831-845 | the var getter succeeds exactly on var handles |
| HandleValues.ConvertToVar | src/c/handle.c:1008-1072 | conversion fails only on types it does not know; a non-null pointer becomes its handle id and a null pointer becomes null |
| HandleValues.ConvertToVarRoundTrip | src/c/handle.c:1014-1041 | (corrected reading) the var an integer handle converts to decodes, with the decoder for the handle's type, back to the handle's value, 64-bit ones included, these through the corrected `VarCodec.Int64` |
| HandleMap.Lookup | src/c/handle.c:231-250 | a handle is found exactly when it is registered |
| HandleMap.InsertSortedSorted | src/c/handle.c:87-143 | registration keeps the map sorted and adds exactly the new handle |
| HandleMap.LookupInsert | src/c/handle.c:87-143 | after registration the new handle maps to its object and every other handle keeps its own |
| HandleMap.RemoveSorted | src/c/handle.c:957-997 | destruction keeps the map sorted and drops exactly the handle |
| HandleMap.LookupRemove | src/c/handle.c:957-997 | after destruction the handle is unknown and every other handle keeps its object |
| HandleMap.InsertAt | src/c/handle.c:126-134 | the shift of registration at the insertion point computes the sorted insertion |
| HandleMap.RemoveAt | src/c/handle.c:988-994 | the shift of destruction computes the removal of the handle |
| HandleMap.LookupAt | src/c/handle.c:231-250 | in a sorted map the entry the bisection stops at is the one registered under that handle |
| HandleMap.KeysCount | src/c/handle.c:145-147 | in a sorted map the count of pairs is the count of distinct handles |
| HandleMap.IntCheckSound | src/c/handle.c:318-518 | a successful integer getter returns a value within the target type's range |
| HandleMap.HandleTable.constructor | src/c/handle.c:71-73 | the map starts empty |
| HandleMap.HandleTable.Count | src/c/handle.c:145-147 | the count is the number of registered handles |
| HandleMap.HandleTable.Resize | src/c/handle.c:75-85 | resizing keeps the registered pairs and gives the requested capacity |
| HandleMap.HandleTable.Search | src/c/handle.c:231-250 | the bisection finds the handle's slot, or the position between the smaller and the larger handles |
| HandleMap.HandleTable.InsertionPoint | src/c/handle.c:103-124 | the fast path and the bisection of registration report a registered handle, or the position that keeps the map sorted |
| HandleMap.HandleTable.ShiftInsert | src/c/handle.c:126-141 | the move and store put the new pair at the insertion point and keep the rest in order |
| HandleMap.HandleTable.Register | src/c/handle.c:87-143 | registration fails exactly on a handle already registered and otherwise inserts the pair at its sorted place, doubling a full array from 16 slots |
| HandleMap.HandleTable.Get | src/c/handle.c:231-250 | the lookup returns the object registered under the handle, or nothing |
| HandleMap.HandleTable.ShiftRemove | src/c/handle.c:988-994 | the move closes the gap left by the removed pair |
| HandleMap.HandleTable.Destroy | src/c/handle.c:957-997 | destruction reports whether the handle existed and removes exactly its pair |
| HandleMap.HandleTable.DestroyMany | src/c/handle.c:999-1006 | destroying a list removes its handles one after the other |
| HandleMap.HandleTable.RegisterInt | src/c/handle.c:149-195 | the integer registrations fail exactly on a registered handle and otherwise add the typed value |
| HandleMap.HandleTable.RegisterVar | src/c/handle.c:215-229 | only string, array, dictionary and array-buffer vars are registered, under an unregistered handle |
| HandleMap.HandleTable.GetInt | src/c/handle.c:520-590 | the integer getters read the registered value through the check table, within the target type's range |
| HandleMap.HandleTable.GetReal | src/c/handle.c:592-608 | the float and double getters read the registered value through the check table |
| HandleMap.HandleTable.GetPointer | src/c/handle.c:783-829 | the void* and char* getters succeed exactly on a registered pointer or string var |
| HandleMap.HandleTable.GetVar | src/c/handle.c:831-845 | the var getter succeeds exactly on a registered var handle and returns that var |
| HandleMap.HandleTable.ToVar | src/c/handle.c:1008-1072 | conversion to a var looks the handle up and converts its object |
| JsLong.FromValue | src/js/naclbind.js:297-309 | building a Long from the halves of a 64-bit value gives a Long whose value is that value |
| JsLong.ValueInjective | src/js/naclbind.js:258-262 | two Longs with the same value have the same halves |
| JsLong.Extremes | src/js/naclbind.js:308-309 | MIN_VALUE is -2^63 and MAX_VALUE is 2^63-1 |
| JsLong.IsNegativeMeans | src/js/naclbind.js:431-433 | a Long is negative exactly when its high half is |
| JsLong.Add | src/js/naclbind.js:540-566 | the sum is the two values' sum wrapped to 64 bits |
| JsLong.AddChunks | src/js/naclbind.js:543-565 | the 16-bit carry chain computes the sum modulo 2^64, the top carry dropped |
| JsLong.Not | src/js/naclbind.js:749-751 | the complement of a value v is -v-1 |
| JsLong.Negate | src/js/naclbind.js:526-532 | negation is the value negated and wrapped to 64 bits |
| JsLong.Subtract | src/js/naclbind.js:574-576 | subtraction is the difference wrapped to 64 bits |
| JsLong.NegateSelf | src/js/naclbind.js:526-532 | MIN_VALUE and zero are the only values that are their own negation |
| JsLong.NegateNegate | src/js/naclbind.js:526-532 | negation is an involution |
| JsLong.AddSubtract | src/js/naclbind.js:540-576 | subtracting what was added gives the original back |
| JsLong.AddCommutes | src/js/naclbind.js:540-566 | addition is commutative |
| JsLong.AddZero | src/js/naclbind.js:540-566 | zero is the identity of addition |
| JsLong.NotComplements | src/js/naclbind.js:749-751 | `not` complements the 64-bit pattern |
| JsLong.And | src/js/naclbind.js:759-761 | `and` of the halves is `and` of the whole 64-bit patterns |
| JsLong.Or | src/js/naclbind.js:769-771 | `or` of the halves is `or` of the whole 64-bit patterns |
| JsLong.Xor | src/js/naclbind.js:779-781 | `xor` of the halves is `xor` of the whole 64-bit patterns |
| JsLong.XorXor | src/js/naclbind.js:779-781 | xor-ing with the same value twice gives the original back |
| JsLong.AndOrSelf | src/js/naclbind.js:759-771 | `and` and `or` of a value with itself give the value |
| JsLong.Multiply | src/js/naclbind.js:584-647 | the product is the two values' product wrapped to 64 bits, through every branch: zero, `MIN_VALUE` times an odd or even value, negated operands, both below 2^24, and the 16-bit chunk products |
| JsLong.MultiplyChunks | src/js/naclbind.js:613-646 | the 16-bit chunk products with their carries compute the unsigned product modulo 2^64 |
| JsLong.MultiplyCommutes | src/js/naclbind.js:584-647 | multiplication is commutative |
| JsLong.MultiplyOne | src/js/naclbind.js:584-647 | one is the identity of multiplication |
| JsLong.MultiplyNegOne | src/js/naclbind.js:584-647 | multiplying by -1 is negation |
| LongShifts.ShiftCount | src/js/naclbind.js:790 | only the low six bits of the shift count are used |
| LongShifts.ShiftLeft | src/js/naclbind.js:789-806 | shifting left multiplies the 64-bit pattern by 2^n modulo 2^64 |
| LongShifts.ShiftRight | src/js/naclbind.js:812-830 | the arithmetic right shift divides the signed value by 2^n, rounding toward minus infinity |
| LongShifts.ShiftRightUnsigned | src/js/naclbind.js:839-856 | the logical right shift divides the unsigned reading by 2^n |
| LongShifts.ShiftByWidth | src/js/naclbind.js:790-792 | a count that is a multiple of 64 leaves the value unchanged for all three shifts |
| LongShifts.ShiftLeftThenRight | src/js/naclbind.js:789-856 | shifting left and back logically restores a value none of whose bits were shifted out |
| LongShifts.ShiftRightNonNegative | src/js/naclbind.js:812-856 | on non-negative values both right shifts agree |
| JsHandles.FinalizerCallsAppend | src/js/naclbind.js:2350-2361 | finalizers run in reverse creation order: handles created later have their finalizers called earlier |
| JsHandles.FinalizerCallsExactly | src/js/naclbind.js:2350-2361 | a finalizer is called on a handle exactly when the handle belongs to the context and its root has that finalizer |
| JsHandles.Cast | src/js/naclbind.js:2370-2378 | a cast is refused exactly when the types cannot be cast; otherwise the new handle keeps the id and the value and takes the new type |
| JsHandles.HandleList.constructor | src/js/naclbind.js:2310-2313 | a fresh list gives out ids from 1 and holds no handles |
| JsHandles.HandleList.SetFinalizer | src/js/naclbind.js:2380-2388 | the finalizer is set on the root handle of the id; an unregistered id or a root that already has one is an error and changes nothing |
| JsHandles.Context.constructor | src/js/naclbind.js:2339-2342 | a fresh context holds no handles |
| JsHandles.Context.CreateHandle | src/js/naclbind.js:2314-2349 | a new handle takes the next id, which rises by one, and is registered both in the list and in the context |
| JsHandles.Context.DestroyHandles | src/js/naclbind.js:2350-2361 | the finalizers are called in reverse creation order and the context is emptied |
| CTypes.QualifiersInjective | src/js/naclbind.js:1219-1233 | a qualifier mask is determined by its set of qualifiers |
| CTypes.LessQualifiedIsStrictSubset | src/js/naclbind.js:1219-1221 | one mask is less qualified than another exactly when its qualifiers are a strict subset of the other's |
| CTypes.QualificationOrder | src/js/naclbind.js:1223-1233 | less-or-equally qualified is the subset order, and more qualified is the converse of less qualified |
| CTypes.CvOrUnion | src/js/naclbind.js:1175-1180 | OR-ing two masks unites their qualifiers |
| CTypes.CheckCv | src/js/naclbind.js:1235-1247 | the Type constructor accepts exactly the cv values 0 to 7 and keeps the value |
| CTypes.Qualify | src/js/naclbind.js:1249-1515 | qualifying a type keeps its kind |
| CTypes.Unqualified | src/js/naclbind.js:1249-1515 | the unqualified type has the same kind and no qualifiers |
| CTypes.QualifyAddsQualifiers | src/js/naclbind.js:1249-1515 | on a type that carries qualifiers, qualifying adds exactly the given ones, and unqualifying afterwards gives the unqualified type |
| CTypes.CanonicalHelper | src/js/naclbind.js:1175-1196 | the rebuilt type holds no typedef |
| CTypes.Canonical | src/js/naclbind.js:1198-1206 | the canonical type holds no typedef |
| CTypes.CanonicalHelperIdentity | src/js/naclbind.js:1198-1206 | rebuilding a typedef-free type gives it back unchanged |
| CTypes.CanonicalIsHelper | src/js/naclbind.js:1198-1206 | the shortcut for typedef-free types agrees with the full rebuild |
| CTypes.CanonicalIdempotent | src/js/naclbind.js:1198-1206 | canonicalising twice changes nothing |
| CTypes.CanonicalTypedef | src/js/naclbind.js:1177-1178 | a typedef canonicalises to its alias's canonical form with the typedef's qualifiers OR-ed in |
| TypeCasts.CanCast | src/js/naclbind.js:1616-1653 | every cast result is a success, warning or failure code |
| TypeCasts.GetCastRank | src/js/naclbind.js:1771-1777 | the rank is the success code, or -1 exactly when the cast warns or fails |
| TypeCasts.CastIgnoresTypedefs | src/js/naclbind.js:1616-1727 | casting and compatibility look through typedefs on both sides |
| TypeCasts.NumericCasts | src/js/naclbind.js:1655-1690 | between numeric types: exact for the same kind, truncation from a higher rank, signed/unsigned at equal rank and different sign, otherwise promotion or conversion |
| TypeCasts.IntegerToPointerOrEnum | src/js/naclbind.js:1660-1665 | an integer cast to a pointer-like type or an enum gives its own warning |
| TypeCasts.VoidPointerConversion | src/js/naclbind.js:1706-1708 | pointers to void and to an object type convert both ways whatever the qualifiers |
| TypeCasts.PointerQualifierRule | src/js/naclbind.js:1709-1717 | between pointers to compatible object types, dropping a pointee qualifier is a warning, and keeping or adding qualifiers is exact |
| TypeCasts.IncompatiblePointees | src/js/naclbind.js:1709-1711 | pointers to incompatible object types give the incompatible-pointers warning |
| TypeCasts.CompatibleReflexive | src/js/naclbind.js:1725-1769 | every canonical type is compatible with itself |
| TypeCasts.CompatibleSymmetric | src/js/naclbind.js:1725-1769 | compatibility is symmetric |
| TypeCasts.CastReflexive | src/js/naclbind.js:1616-1723 | a type other than a function type casts to itself exactly |
| TypeCasts.PrototypeArgumentsCompatible | src/js/naclbind.js:1757-1760 | two compatible prototypes have pairwise compatible argument types (corrected comparison) |
| TypeCasts.CompatibleAsWrittenCounterexample | src/js/naclbind.js:1760 | as written, `int (int)` and `int (int *)` count as compatible, so the pointer cast between them is exact; with the argument types compared they are incompatible and the cast is the incompatible-pointers warning |
| Overload.CallRank | src/js/naclbind.js:1779-1798 | a call rank has one entry per argument |
| Overload.CallRankMeans | src/js/naclbind.js:1779-1798 | each entry is the argument's cast rank, or the default-promotion rank for a no-prototype function and for variadic extras; there is no rank exactly when some parameter cannot take its argument without a warning |
| Overload.GetFunctionCallRank | src/js/naclbind.js:1779-1798 | the loop computes the call rank of the specification |
| Overload.BetterAsymmetric | src/js/naclbind.js:1800-1818 | at most one of two rank lists is better than the other |
| Overload.CompareFunctionCallRanks | src/js/naclbind.js:1800-1818 | the one-pass comparison agrees with the pointwise comparison of the specification, 0 when the lists disagree in both directions |
| Overload.BestUnique | src/js/naclbind.js:1820-1853 | there is at most one best viable function |
| Overload.ScanUpTo | src/js/naclbind.js:1826-1850 | after each candidate the current best is -1 or a viable candidate already scanned |
| Overload.GetBestViableFunctionAsWritten | src/js/naclbind.js:1820-1853 | the loop as written computes the as-written specification |
| Overload.ScanKeepsBest | src/js/naclbind.js:1826-1850 | once the best viable function has been scanned it stays the current best |
| Overload.BestAsWrittenFindsBest | src/js/naclbind.js:1820-1853 | as written, a best viable function is always found, and any candidate returned is viable |
| Overload.ExampleRanks | src/js/naclbind.js:1779-1798 | three concrete candidates called with `(int, int)` rank [3, 1], [1, 3] and [3, 2] |
| Overload.BestAsWrittenCounterexample | src/js/naclbind.js:1836-1844 | as written, candidate 2 is returned although it does not beat candidate 1, so no candidate is best |
| Overload.GetBestViableFunction | src/js/naclbind.js:1820-1853 | the corrected search returns a candidate only when it beats every other viable candidate, and -1 exactly when there is none |
| DistTypes.EqualsReflexive | dist/naclbind.js:1261-1530 | every type data equals itself |
| DistTypes.EqualsSymmetric | dist/naclbind.js:1261-1530 | equality of type data is symmetric |
| DistTypes.EqualsTransitive | dist/naclbind.js:1261-1530 | equality of type data is transitive |
| DistTypes.EqualsSameSize | dist/naclbind.js:1261-1530 | equal type data have equal sizes, except structs, which are equal by name alone |
| DistTypes.RegisterKeepsRegistry | dist/naclbind.js:950-964 | registering a type with a new id, a new name and data unlike every registered type's keeps ids, names and data unique |
| DistTypes.AliasKeepsRegistry | dist/naclbind.js:966-972 | adding a new name for a registered type keeps the registry invariant |
| DistTypes.TypeBuilder.constructor | dist/naclbind.js:931-934 | a fresh builder has no types |
| DistTypes.TypeBuilder.FindTypeData | dist/naclbind.js:940-948 | the search finds a registered type with equal data exactly when there is one |
| DistTypes.TypeBuilder.EqualDataUnique | dist/naclbind.js:940-948 | at most one registered type has data equal to given data, so the visiting order does not matter |
| DistTypes.TypeBuilder.RegisterType | dist/naclbind.js:950-964 | registration refuses id 0, a duplicate id, a duplicate name and data equal to a registered type's, changing nothing, and otherwise adds the type under its id and name |
| DistTypes.TypeBuilder.MakeAliasType | dist/naclbind.js:966-972 | an alias takes the aliased type's id and data under a new name; an unknown alias or a taken name is refused |
| DistTypes.SignedRanges | dist/naclbind.js:795-811 | the signed ranges of 1, 2, 4 and 8 bytes are the usual two's-complement ranges |
| DistTypes.GetIntType | dist/naclbind.js:795-811 | the chosen type is the smallest of int8, int16, int32 and int64 that holds the value; uint64 above, an error below |
| DistTypes.CanCoercePrimitive | dist/naclbind.js:871-927 | float to int throws; between two ints or two floats the coercion is too large exactly when the source is wider; int to float is too large exactly for an int of 4 or more bytes to float32 or an 8-byte int to float64; a same-size signed-to-unsigned coercion is refused exactly for a negative literal; every other coercion is allowed |
| DistTypes.LiteralCoercionKeepsValue | dist/naclbind.js:876-895 | a signed literal that coerces to a signed or same-size integer type fits that type |
| DistTypes.StructLayout.constructor | dist/naclbind.js:1392-1407 | a new struct has its name and size and no fields |
| DistTypes.StructLayout.AddField | dist/naclbind.js:1429-1437 | a field is added exactly when its offset is non-negative, it ends inside the struct and its name is new; otherwise the fields are unchanged |
| DistTypes.Module.constructor | dist/naclbind.js:490-504 | a fresh module has no queued commands |
| DistTypes.Module.PushCommand | dist/naclbind.js:609-629 | one message is appended; argument i is marked as a handle exactly when it is one, and then its id is stored |
| DistTypes.MessageRoundTrip | dist/naclbind.js:609-629 | the arguments can be read back from a pushed message |
| GenTypes.QualifierLetters | bin/gen_types.py:244-249 | the mangled qualifiers hold one letter per qualifier present, in the order restrict, volatile, const |
| GenTypes.QualifiersMangledInjective | bin/gen_types.py:244-249 | two qualifier sets with the same mangled letters are equal |
| GenTypes.PrimitiveCodeDecodes | bin/gen_types.py:105-124 | every primitive's code reads back as that primitive, except that signed and unsigned plain `char` both read back as `char` |
| GenTypes.PrimitiveCodesDistinct | bin/gen_types.py:105-124 | two different primitives share a code only when they are the two flavours of plain `char` |
| GenTypes.Split | bin/gen_types.py:140-146 | splitting a spelling on spaces gives at least one part, and no part holds a space |
| GenTypes.JoinSplit | bin/gen_types.py:140-146 | joining the parts of a split with spaces gives the spelling back |
| GenTypes.SplitJoin | bin/gen_types.py:140-146 | splitting a space-join of space-free parts gives the parts back |
| GenTypes.FirstKept | bin/gen_types.py:140-146 | the index the stripping loop stops at is the first part that is not a prefix word, or the last part when all of them are |
| GenTypes.BaseSpellingSuffix | bin/gen_types.py:149-151 | the base spelling is a suffix of the spelling, and it starts with a word other than struct/union/enum/const/volatile/restrict unless only one word is left |
| GenTypes.BaseSpellingIdempotent | bin/gen_types.py:149-151 | stripping the prefixes twice gives the same as stripping them once |
| GenTypes.ParseName | bin/gen_types.py:136-137 | reading a length-prefixed name off a string always consumes something |
| GenTypes.MangleNameRoundTrip | bin/gen_types.py:136-137 | a name that does not start with a digit reads back from its length-prefixed form, whatever follows it |
| GenTypes.QualifiersRead | bin/gen_types.py:244-249 | the qualifier letters read back when a type code follows them |
| GenTypes.MangledHead | bin/gen_types.py:425-788 | a mangled name is never empty, never starts with `E` or `z`, and starts with `v` only for `void` |
| GenTypes.DemangleMangled | bin/gen_types.py:425-788 | every mangled type reads back as its shape, whatever text follows it |
| GenTypes.KindReads | bin/gen_types.py:425-426 | after its qualifier letters, a mangled name is read by its type code |
| GenTypes.PrimitiveReads | bin/gen_types.py:460-461 | a primitive's qualifiers and code read back as the primitive |
| GenTypes.PointerReads | bin/gen_types.py:496-497 | qualifiers, `P` and the pointee's mangling read back as a pointer to the pointee's shape |
| GenTypes.ArrayReads | bin/gen_types.py:753-755 | qualifiers, `A`, the size, `_` and the element's mangling read back as an array of that size |
| GenTypes.NamedReads | bin/gen_types.py:535-536 | qualifiers and a length-prefixed tag or typedef name read back as that name |
| GenTypes.NoProtoReads | bin/gen_types.py:661-662 | `F`, the result's mangling and `E` read back as a function without prototype |
| GenTypes.FunctionReads | bin/gen_types.py:707-717 | `F`, the result, the parameters (or `v` for none), `z` when variadic and `E` read back as that function |
| GenTypes.CloseReads | bin/gen_types.py:713-716 | the optional `z` and the closing `E` read back as the variadic flag |
| GenTypes.DemangleMangledArgs | bin/gen_types.py:709-712 | the concatenated manglings of the parameters read back as their shapes, up to `z` or `E` |
| GenTypes.MangledDeterminesShape | bin/gen_types.py:425-788 | two types with the same mangled name have the same shape: mangling loses only char signedness, pointer versus unknown-size array, the kind of a named type and function qualifiers |
| GenTypes.VolatileCollidesWithVoid | bin/gen_types.py:244-249 | as written, `void f(void *, int)` and `void f(volatile int *)` both mangle to `FvPviE` although their shapes differ |
| GenTypes.VolatileLetterSeparates | bin/gen_types.py:244-249 | with `V` for volatile the two functions mangle to `FvPviE` and `FvPViE` |
| GenTypes.SpellingKeepsName | bin/gen_types.py:339-400 | the corrected C spelling of any type with a declarator name contains that name |
| GenTypes.SpellingSplit | bin/gen_types.py:352-398 | the corrected spelling is the text before the name, the name, and the text after it, for every kind of type |
| GenTypes.Wrapping | bin/gen_types.py:352-353 | a declarator is put in parentheses exactly when its kind binds looser than the enclosing one, and then it gets both parentheses |
| GenTypes.IncompleteArraySpelling | bin/gen_types.py:380-382 | as written, `int x[]` spells as the empty string and loses the name; the corrected spelling is `int x[]` |
| GenTypes.AnonNameLetter | bin/gen_types.py:131 | the eighth letter of an anonymous name is the first letter of its kind |
| GenTypes.AnonNameInjective | bin/gen_types.py:131 | different kinds or different counters give different anonymous names |
| GenTypes.AnonymousNamesDistinct | bin/gen_types.py:126-134 | no two spellings in the anonymous-name table share a name |
| GenTypes.AnonymousEntriesAdd | bin/gen_types.py:131-133 | adding a spelling with the name numbered by the table's size keeps the table well formed, and the new name is not an old one |
| GenTypes.AnonymousTableAdd | bin/gen_types.py:131-133 | the table stays one whose names are distinct and numbered below its size after an addition |
| GenTypes.AnonymousNames.constructor | bin/gen_types.py:126 | the table starts empty |
| GenTypes.AnonymousNames.GetAnonymousName | bin/gen_types.py:127-134 | a known spelling gets its old name and the table is unchanged; a new spelling gets `__anon_<kind>_<size>`, which differs from every earlier name, and only that entry is added |
| GenTypes.MakeTag | bin/gen_types.py:505-520 | the C tag is the base spelling; a named tag's JavaScript tag is the same and the table is unchanged; an anonymous tag's JavaScript tag is the name the table gives its base spelling |
| GenTypes.InternedKey | bin/gen_types.py:317-318 | an unexposed type is interned under its canonical type's key, any other type under its own key; in a clang type graph that key is present, and when it is still unexposed it is its own canonical type |
| GenTypes.MemoTableInjective | bin/gen_types.py:188-206 | two different memo keys never map to the same interned type |
| GenTypes.MemoTableAdd | bin/gen_types.py:323-328 | memoising a new key as the next interned type keeps the memo table consistent |
| GenTypes.MemoTableSetChildren | bin/gen_types.py:479-482 | filling in the children of an interned type keeps the memo table consistent |
| GenTypes.ResolvedAsStep | bin/gen_types.py:677-682 | growing the memo keeps earlier resolutions, and resolving the next key extends the list of ids |
| GenTypes.TypeMemo.constructor | bin/gen_types.py:154-156 | the memo starts empty over the given type graph, whose keys are all present and whose canonical types are their own canonical types, as clang gives them |
| GenTypes.TypeMemo.Resolve | bin/gen_types.py:289-321 | the type is looked up under its interned key; a memoised type is returned unchanged; an unsupported kind is an error; an unexposed type whose canonical type is unexposed too is the recursion error of gen_types.py:317-318; a new type is interned; the memo only grows and interned types are kept |
| GenTypes.TypeMemo.Intern | bin/gen_types.py:323-329 | the new type is memoised before its children are resolved, so cycles end; on success its children are the resolved ids of the clang type's children |
| GenTypes.TypeMemo.Enter | bin/gen_types.py:323-329 | a new key is memoised with the next id and a placeholder type, before its children are resolved; earlier entries are kept |
| GenTypes.TypeMemo.ResolveAll | bin/gen_types.py:677-682 | the types are resolved in order, and on success the ids are exactly their resolutions; the memo only grows |
| Gen.UnparseParse | bin/gen.py:254-291 | unparsing the parsed arguments gives back the original argument list |
| Gen.ParsedCanonical | bin/gen.py:254-266 | every parsed list is canonical: an option takes a value only when the value does not start with `-` |
| Gen.ParseUnparse | bin/gen.py:254-291 | parsing the unparsed form of a canonical list gives the list back |
| Gen.ParseClangArgs | bin/gen.py:254-266 | the loop pairs `-opt value` when the next argument does not start with `-` and keeps other arguments alone; its result is canonical and unparses to the input |
| Gen.UnparseClangArgs | bin/gen.py:284-291 | the loop writes each name followed by its value when it has one; a canonical list reads back from it |
| Gen.RenameParsedArgs | bin/gen.py:269-277 | the result has the same length; each argument whose name is in the table gets the new name and keeps its value, the others are unchanged |
| Gen.FilterParsedArgs | bin/gen.py:280-281 | an argument is kept exactly when its name is not filtered out, and the result is no longer than the input |
| Gen.FilterAppend | bin/gen.py:280-281 | filtering a concatenation is the concatenation of the filtered parts, so order is kept |
| Gen.FilterIdempotent | bin/gen.py:280-281 | filtering twice is filtering once |
| Gen.SplitOn | bin/gen.py:54 | `str.split('=')` gives at least one piece and no piece holds the separator |
| Gen.SplitOnCount | bin/gen.py:54 | there is one more piece than separators |
| Gen.SplitOnTwo | bin/gen.py:54 | with two pieces, the string is the first piece, `=` and the second piece |
| Gen.ParseRemapOption | bin/gen.py:52-62 | the option is a format error exactly when it does not hold exactly one `=`; a symbol already remapped is an error naming its old target; otherwise the table gains exactly FROM mapped to TO |
| Gen.FindMatch | bin/gen.py:357-370 | the loop over the patterns finds a match exactly when some pattern matches |
| Gen.Accept | bin/gen.py:356-380 | whitelisted file or symbol accepts; otherwise a blacklisted one rejects; otherwise the translation unit's own file accepts; otherwise the default decides |
| Gen.MakeAcceptor | bin/gen.py:513-521 | the default is to accept exactly when there is no whitelist, and the acceptor is built with that default |
| Gen.AcceptWithWhitelist | bin/gen.py:356-380 | with a whitelist a symbol is accepted exactly when it is whitelisted or (not blacklisted and in the main file); without one, exactly when it is not blacklisted |
| Gen.FirstMarkerIsFirst | bin/gen.py:462-469 | the marker search from a position finds the first marker line at or after it, and none when there is none |
| Gen.FindMarker | bin/gen.py:467 | the scan for a marker line returns the first one from the position on |
| Gen.StrippedFromRegion | bin/gen.py:466-476 | once both markers are found, the text before the start marker is kept and stripping goes on after the end marker |
| Gen.StripRegions | bin/gen.py:461-478 | the loop returns the text with each region from a start marker to the next end marker removed, and an error when a start marker has no end |
| Gen.StrippedHasNoStart | bin/gen.py:461-478 | no start marker line is left after stripping |
| Gen.StrippedIdempotent | bin/gen.py:461-478 | stripping the stripped text changes nothing |
| GenCollector.EnterStep | bin/gen.py:428-433 | entering a new unqualified type adds it to the set and to the walk's stack, keeping the collector's type invariant |
| GenCollector.ExitStep | bin/gen.py:435-436 | exiting the type on top of the stack, once everything it visits is entered, appends it to the post-order and keeps the invariant |
| GenCollector.TopoClosed | bin/gen.py:428-436 | between walks the type set and the post-order list hold the same types, and every type a listed type visits is listed |
| GenCollector.ChildrenBeforeParents | bin/gen.py:428-436 | when the type graph has no cycle, every type a listed type visits is listed before it |
| GenCollector.BucketMembers | bin/gen.py:419-420 | a function is in the bucket of a key exactly when it was filed under that key |
| GenCollector.BucketAppend | bin/gen.py:419-420 | filing a function appends it to its own bucket and leaves the others unchanged |
| GenCollector.BucketMapBuckets | bin/gen.py:419-420 | the dict built by `setdefault(...).append` has exactly the keys seen, each holding its functions in filing order |
| GenCollector.RemappedName | bin/gen.py:416 | a name missing from the remap table is kept |
| GenCollector.IterAll | bin/gen_types.py:841-849 | only function and enum declarations are yielded |
| GenCollector.IterYieldsDeclarations | bin/gen_types.py:841-849 | every function or enum declaration among the siblings is yielded, in their order |
| GenCollector.AcceptedOfMembers | bin/gen.py:393-408 | a cursor is processed exactly when the acceptor accepts its file or name |
| GenCollector.FunctionsOf | bin/gen.py:410-421 | collected functions are numbered consecutively from the first free id |
| GenCollector.EnumsOf | bin/gen.py:423-426 | registering enums never drops or changes an enum already registered |
| GenCollector.CollectRound | bin/gen.py:393-408 | one more cursor: an accepted function is appended with the next id, an accepted enum is registered unless its spelling is known, anything else changes nothing |
| GenCollector.Collector.constructor | bin/gen.py:384-391 | a new collector has no types, no functions, empty dicts and next id 0 |
| GenCollector.Collector.VisitType | bin/gen.py:428-436 | the type is entered (once) and its children visited before it is appended to the post-order; a type seen before changes nothing |
| GenCollector.Collector.FileFunction | bin/gen.py:413-420 | the function gets the next id, is appended to the function list and to its remapped-name and canonical-type buckets |
| GenCollector.Collector.VisitFunction | bin/gen.py:410-421 | the function's types are visited, then it is filed with the next id under its remapped name and canonical type; enums are unchanged |
| GenCollector.Collector.VisitEnum | bin/gen.py:423-426 | the first enum of a spelling is kept; a later one changes nothing |
| GenCollector.Collector.SortedFunctionTypes | bin/gen.py:438-441 | the items are exactly the function-type buckets, in ascending order of the type's mangled name |
| GenCollector.Collector.SortedRemappedFunctions | bin/gen.py:443-445 | the items are exactly the remapped-name buckets, in ascending name order |
| GenCollector.Collector.SortedEnums | bin/gen.py:447-449 | the items are exactly the registered enums, in ascending spelling order |
| GenCollector.Collector.VisitCursor | bin/gen.py:396-411 | an accepted function is filed after its type has been visited, so the function it adds has its unqualified type among the visited types; an accepted enum is registered, an accepted cursor of another kind is the "unexpected cursor" error, a rejected one changes nothing |
| GenCollector.Collector.CollectAt | bin/gen.py:393-411 | visiting the next declaration extends what the loop has collected by that one declaration, and the type of a function it adds has been visited |
| GenCollector.Collector.Collect | bin/gen.py:393-411 | the functions gained are the accepted function declarations numbered in order, and the enums are the accepted enum declarations, first of a spelling winning; the functions by name are the old ones plus each gained function filed under its remapped name (`remap.get(name, name)`), in order; the unqualified type of every function gained is among the visited types, as `fn.VisitTypes(self)` leaves it |
| HelperNames.ToUpper | py/helper.py:93 | upper-casing a character leaves no lower-case letter, shifts `a`-`z` by 32 and keeps every other character |
| HelperNames.CamelToSnake | py/helper.py:80-89 | the loop over the characters, remembering whether the previous one was lower case, builds the snake_case spelling |
| HelperNames.SnakeLast | py/helper.py:80-89 | the snake_case spelling of a non-empty name ends with the name's last character |
| HelperNames.SnakeHasNoHump | py/helper.py:80-89 | no lower-case letter is directly followed by an upper-case one in the result |
| HelperNames.SnakeOfNoHump | py/helper.py:80-89 | a name without such a hump is left as it is |
| HelperNames.SnakeIdempotent | py/helper.py:80-89 | converting twice is converting once |
| HelperNames.SnakeOnlyAddsUnderscores | py/helper.py:80-89 | only underscores are inserted: removing underscores from both gives the same text |
| HelperNames.Upper | py/helper.py:93 | upper-casing keeps the length and upper-cases each character |
| HelperNames.CamelToMacro | py/helper.py:92-93 | the MACRO_CASE spelling is the upper-cased snake_case spelling, with no lower-case letter |
| HelperNames.MacroKeepsUnderscores | py/helper.py:92-93 | the MACRO_CASE spelling has an underscore exactly where the snake_case spelling has one |
| HelperNames.MakeCIdentNoDollar | py/helper.py:104-105 | no `$` is left, and each `$` makes the identifier one character longer |
| HelperNames.MakeCIdentKeeps | py/helper.py:104-105 | an identifier without `$` is unchanged |
| HelperNames.MakeCIdentRoundTrip | py/helper.py:104-105 | for identifiers without underscores of their own, replacing `_p` by `$` gives the identifier back |
| HelperTypes.GetFormat | py/helper.py:207-217 | a type has a log conversion exactly when it is a primitive, a Pepper type or a pointer |
| HelperTypes.BuiltinFormats | py/helper.py:26-77 | every builtin primitive is logged with the conversion C's printf prescribes for the C type it is spelled as |
| HelperTypes.LookupAll | py/helper.py:484-489 | the lookup succeeds exactly when every name is known, giving their types' structures in order; otherwise it fails with a name that is not known |
| HelperTypes.FunctionTypeData | py/helper.py:484-489 | a function structure is built exactly when its result and all its arguments are known, and then it holds their structures in order |
| HelperTypes.TypeDictToTypeData | py/helper.py:447-483 | an alias has no structure of its own; every kind other than `function` reads as written, and `function` reads as a function description |
| HelperTypes.FunctionKindFinding | py/helper.py:476-477 | as written every `function` type description fails with a missing method; the corrected reading gives the function structure whenever its types are known |
| HelperTypes.FunctionKindExample | py/helper.py:476-477 | a `void (void)` callback type fails as written and reads as a function of `void` with no arguments when corrected |
| HelperTypes.SameIdIffSameData | py/helper.py:491-513 | in the registry two types share an id exactly when they have equal structure |
| HelperTypes.RegistryAdd | py/helper.py:393-405 | registering a type that fits keeps the registry invariant |
| HelperTypes.IdGenerator.constructor | py/helper.py:109-110 | ids start at 1 |
| HelperTypes.IdGenerator.Get | py/helper.py:112-115 | the current id is returned and the next one is one more |
| HelperTypes.IdGenerator.Set | py/helper.py:117-118 | the next id is the one given |
| HelperTypes.Types.constructor | py/helper.py:387-391 | the registry starts with every dict empty |
| HelperTypes.Types.AddType | py/helper.py:393-405 | the type is appended to its structure's list; a function type goes to the function types; any other fails on a name already registered and is otherwise registered by name, and among the non-builtins when not builtin; the two `OrderedDict`s keep their insertion order (a new key goes last, a re-set key keeps its place); the whole new state is `AddToTypes` of the old |
| HelperTypes.TypesBuilder.constructor | py/helper.py:409-412 | a new builder has an empty registry (all four dicts and both key orders empty) and ids from 1 |
| HelperTypes.TypesBuilder.DictToType | py/helper.py:491-513 | an alias takes the id and structure of the type it names (an unknown name fails); a structure already registered makes an alias of the first type with it; only a new structure takes a new id |
| HelperTypes.TypesBuilder.AddTypeDict | py/helper.py:420-423 | the built type is registered under its structure, and by name unless it is a function; at most one id is used; a description whose references are all registered, whose kind is known and whose name is new always registers, and exactly its name is added (none for a function type); the four dicts after it are the old ones with at most one type registered as `AddType` does, one made from the description; a name already registered fails after the made type has been listed under its structure, the other dicts unchanged, as the source's `assert` leaves them |
| HelperTypes.TypesBuilder.MakeType | py/helper.py:438-441 | the type a description makes fits the registry and carries the description's name; it is a function type exactly for a function description; a loadable description always makes one |
| HelperTypes.TypesBuilder.AddTypeDicts | py/helper.py:416-418 | the descriptions are registered in order, stopping at the first failure, using at most one id each; when each is loadable after the ones before it, none fails and the registered names are exactly the old ones plus theirs; the four dicts after it are the old ones with the made types registered one by one as `AddType` does, one per description on success and one per description before the failing one otherwise |
| HelperTypes.NewTypesBuilder | py/helper.py:409-414 | without the builtins the builder is always made, empty with ids from 1; with them, user ids start at `FIRST_ID` (1000), every builtin type has an id of at most 46, below `FIRST_ID`, and when the builtin table is loadable the builder is made with exactly the builtin names registered; the non-builtin dict starts empty either way |
| HelperTypes.AddTypeKeepsOrder | py/helper.py:393-405 | registering one type keeps each `OrderedDict`'s key sequence listing its keys once each, and only extends it |
| HelperTypes.AddAllKeepsOrder | py/helper.py:416-418 | registering a sequence of types keeps both key orders and only extends them |
| HelperTypes.BuiltinsLeaveNoBuiltins | py/helper.py:401-405 | registering builtin types never touches the non-builtin dict or its order |
| HelperTypes.NewNameGoesLast | py/helper.py:396-405 | a newly filed non-builtin, or a function type with a new name, goes last in its dict's order; a function type re-filed under a known name keeps the order |
| StrOrder.StrLeTotal | bin/gen.py:443-449 | Python's string order is total |
| StrOrder.StrLeAntisymmetric | bin/gen.py:443-449 | two strings each below the other are equal |
| StrOrder.StrLeTransitive | bin/gen.py:443-449 | the string order is transitive |
| StrOrder.SortedItems | bin/gen.py:438-449 | the selection loop lists every item of the dict once, in ascending key order |
| StrOrder.ItemsTail | bin/gen.py:438-449 | dropping the first item of a sorted listing lists the rest of the dict, still sorted |
| StrOrder.SortedItemsUnique | bin/gen.py:443-449 | two ascending listings of the same dict with string keys are equal, so the loop gives exactly what `sorted(d.keys())` gives |
| StrOrder.ItemsCount | bin/gen.py:438-449 | a listing of a dict has one item per key |
| TemplateScan.CloseAt | py/easy_template.py:16 | the lazy `.*?` stops at the first `}}` on the line, and a found position really holds `}}` |
| TemplateScan.MatchAt | py/easy_template.py:16 | a `{{...}}` match is at least four characters long and ends inside the line |
| TemplateScan.DoubleAppend | py/easy_template.py:56 | `replace('%', '%%')` on a concatenation is the concatenation of the replacements |
| TemplateScan.DoubleNoClose | py/easy_template.py:56 | doubling `%` never makes a `}}` |
| TemplateScan.MatchLocal | py/easy_template.py:16 | a match depends only on the characters it spans |
| TemplateScan.RenderAllText | py/easy_template.py:59 | with no `}}` ahead, the rest of the line is rebuilt as text with `%` doubled |
| TemplateScan.RescanBrace | py/easy_template.py:51-60 | an opening brace that starts no match in the line starts none in the rebuilt line either |
| TemplateScan.RescanMatch | py/easy_template.py:57 | a match of the line reappears unchanged in the rebuilt line, where it was moved to |
| TemplateScan.Rescan | py/easy_template.py:51-65 | scanning the rebuilt line finds the same expressions as scanning the line, between the doubled texts |
| TemplateScan.Exprs | py/easy_template.py:65 | there are no more expressions than segments |
| TemplateScan.MatchesHead | py/easy_template.py:51-58 | the first match from a position lies after it and is a real match; the later matches follow it; the rebuilt line is the doubled text before it, the match, then the rest rebuilt |
| TemplateScan.NoMatches | py/easy_template.py:59 | with no match left, the rest of the line is rebuilt doubled and scanned as one text |
| TemplateScan.ExprsCount | py/easy_template.py:51-65 | the scan finds one expression per match of `finditer` |
| TemplateScan.ScanRenders | py/easy_template.py:63-65 | writing the scanned segments back gives the line: the scan loses nothing |
| TemplateScan.MatchBraces | py/easy_template.py:16 | a match is `{{`, its expression and `}}` |
| TemplateFormat.Prepend | py/easy_template.py:63-65 | putting text in front of a formatted result keeps an error an error |
| TemplateFormat.Braced | py/easy_template.py:16 | each expression is given back with its braces |
| TemplateFormat.FormatDouble | py/easy_template.py:56 | Python's `%` formatting reads a `%`-doubled text back as the text |
| TemplateFormat.FormatPercentS | py/easy_template.py:64 | a `%s` takes the next value, and fails when there is none |
| TemplateFormat.FormatSegs | py/easy_template.py:63-65 | the format with doubled text and `%s` per expression formats exactly when given one value per expression, and then gives the line with each expression replaced by its value |
| TemplateFormat.FillBraced | py/easy_template.py:63-65 | giving each expression its own braced text writes the line back |
| TemplateFormat.ReprBodyRoundTrip | py/easy_template.py:71 | the body of the `repr` literal of an ending reads back as that ending |
| TemplateFormat.ReprRoundTrip | py/easy_template.py:71 | the `repr` literal written for an ending reads back as the ending |
| TemplateFormat.ReprNoBreak | py/easy_template.py:71 | the `repr` literal holds no line feed and no carriage return |
| EasyTemplate.LineEnd | py/easy_template.py:25 | a line ends just after its `\n`, `\r` or `\r\n`, or at the end of the text, and holds no other break |
| EasyTemplate.LinesConcat | py/easy_template.py:25 | `splitlines(1)` keeps the line ends: the lines joined are the text |
| EasyTemplate.LinesAreLines | py/easy_template.py:25 | each line holds one line break at most, at its end, and each but the last ends with one |
| EasyTemplate.SplitLinesConcat | py/easy_template.py:25 | the lines of a template joined are the template, and each is one line |
| EasyTemplate.Core | py/easy_template.py:15 | the `$` anchor lets a final line feed through |
| EasyTemplate.StatementOf | py/easy_template.py:15 | a `[[...]]` line gives the statement between the brackets, which holds no line feed |
| EasyTemplate.StatementRoundTrip | py/easy_template.py:15 | any statement without a line feed, written as a `[[...]]` line with or without a line feed, is read back |
| EasyTemplate.LeadingSpace | py/easy_template.py:41 | `\s*` matches all the whitespace the statement starts with and no more |
| EasyTemplate.RStrip | py/easy_template.py:42 | `rstrip()` removes exactly the trailing whitespace |
| EasyTemplate.EndingOf | py/easy_template.py:47-49 | the ending is the longest tail of the line made of backslashes, quotes, `\r` and `\n` |
| EasyTemplate.BodyEnding | py/easy_template.py:47-49 | the line is its body then its ending, and the body does not end with a character of the ending |
| EasyTemplate.BodyNoBreak | py/easy_template.py:47-49 | the body of a line has no line feed |
| EasyTemplate.StripEnding | py/easy_template.py:46-49 | the loop moving the last characters to the ending returns the line's body and ending |
| EasyTemplate.RebuildLine | py/easy_template.py:53-60 | the loop over the matches builds the rebuilt line: text between matches with `%` doubled, matches kept |
| EasyTemplate.RunConcat | py/easy_template.py:21-75 | compiling two runs of lines in turn is compiling their concatenation |
| EasyTemplate.RunSnoc | py/easy_template.py:21-75 | compiling one more line appends that line's code and moves to its state |
| EasyTemplate.WriteText | py/easy_template.py:45-72 | the code for a text line is the indent and the `write` call for its body and ending |
| EasyTemplate.CompileLine | py/easy_template.py:26-72 | one pass of the loop body gives the state and the code for the line that one compiling step defines |
| EasyTemplate.TemplateToPython | py/easy_template.py:21-75 | the output is the concatenation of the code for each line of the template, compiled in turn from the start state |
| EasyTemplate.TextLineWrites | py/easy_template.py:45-72 | a text line keeps the state and becomes one `write` with the line's indent and ending; its arguments are the line's expressions; run with one value per expression it writes the line with the values in place and its `%` signs as they were, and with any other number it raises |
| EasyTemplate.TextLineKept | py/easy_template.py:45-72 | nothing of a text line is lost: with each expression given its braced text the line comes back, and the ending's literal reads back as the ending |
| EasyTemplate.VerbatimLines | py/easy_template.py:34-36 | inside `[[[ ]]]` each line is copied as it stands and the state is kept |
| EasyTemplate.StatementBlock | py/easy_template.py:26-36 | a `[[[ ... ]]]` block compiles to its lines with one empty line for each delimiter, and leaves the indent as it was |
| EasyTemplate.DelimiterLine | py/easy_template.py:26-33 | a delimiter line writes one empty line and switches the statement mode |
| EasyTemplate.IndentAfterStatement | py/easy_template.py:38-44 | a `[[...]]` line writes its statement; the next text lines are indented by its leading whitespace, two spaces more when it ends with `:`, and their code starts with that indent |
| EasyTemplate.StepOneLine | py/easy_template.py:26-72 | every line ending in `\n` compiles to exactly one line of Python, and the indent never holds a line feed |
| EasyTemplate.RunFeeds | py/easy_template.py:21-75 | lines ending in `\n` compile to as many lines of Python |
| EasyTemplate.TemplateFeedLines | py/easy_template.py:25 | in a template with `\n` line ends ending with a line feed, each line ends with its own line feed |
| EasyTemplate.LineNumbersKept | py/easy_template.py:21-75 | such a template compiles to a program with as many lines as the template, so line numbers in errors match |
| HelperTypes.OverloadsOf | py/helper.py:426-429 | a function description stands for its overloads when it has any, and for itself otherwise, so at least one signature is registered |
| HelperTypes.TypesBuilder.AddSignature | py/helper.py:432-434 | the function type of one signature is made, listed under the structure its result and argument types name, and never filed by name; on success it is filed among the function types under the overload's name and the whole new state is `AddToTypes` of the old; the non-builtin dict never changes; on failure nothing changes; a signature whose types are all registered always succeeds |
| HelperTypes.TypesBuilder.AddFunctionDict | py/helper.py:425-436 | each overload's function type is registered in order, with the overload's name and the structure its signature names, using at most one id each and leaving the named and non-builtin types unchanged; the four dicts after it are the old ones with those function types registered in order as `AddType` does, each made from its overload with the builder's builtin flag; when every referenced type is registered, it succeeds with one type per overload |

## Left out

- Floating point. `float` and `double` values are exact reals, and only their range checks are modelled. `nb_handle_get_default` (src/c/handle.c:847) is not modelled at all: it only packs a handle's value into the platform's integer and double vararg slots, on x86-64 and on 32-bit targets alike, which is calling-convention plumbing. Also not modelled: the float branch of argument typing in the JavaScript runtime, and `Long.fromNumber`, `toNumber`, `toString`, `div` and `modulo`, which compute with JavaScript doubles. `multiply` computes with 16-bit chunks and is modelled as `JsLong.Multiply`; only its small-operand branch goes through `fromNumber`, whose value is exact there.
- `Long` reads and comparisons (`fromInt`, `toInt`, the bit getters, `isZero`, `isOdd`, `getNumBitsAbs`, `equals` to `greaterThanOrEqual`, `compare`): not modelled. They only read the halves or combine `subtract` with `isNegative`, which are modelled.
- `getSpelling` (src/js/naclbind.js:1538-1613): not modelled. It fills a type's `spelling` text, which appears only in error messages; no cast, compatibility or overload decision reads it.
- DistTypes.GetIntType: the literal is an exact integer. The source compares JavaScript doubles, so `9223372036854775807` is 2^63 there. The source therefore calls 2^63 `int64`, while the model calls it `uint64`; integers above 2^53 are rounded in the source and not in the model.
- DistTypes.CanCoercePrimitive: a literal is an integer or absent. A non-integral number reaches only the float rules, which do not read it.
- Run.SetTagged: a "function"-tagged array is skipped. Registering a function id goes through `nb_var_func_id` and `nb_handle_register_func_id`, which are not part of this model.
- Run.SetTagged: a "long" array is decoded with the corrected `VarCodec.Int64`, not with `nb_var_int64` as written (src/c/var.c:258). The as-written decoder is `VarCodec.Int64AsWritten`; see Findings.
- VarCodec.Uint64: (corrected reading) the 64-bit value comes from the corrected `VarCodec.Int64`, which zero-extends the low half, not from `nb_var_int64` as written (src/c/var.c:258), which sign-extends it; see Findings.
- HandleValues.ConvertToVarRoundTrip: (corrected reading) the 64-bit case decodes with the corrected `VarCodec.Int64`, not with `nb_var_int64` as written (src/c/var.c:258); as written, a value with bit 31 set reads back differently (`VarCodec.Int64AsWrittenCounterexample`); see Findings.
- CTypes.Type: the refusals of the JavaScript type constructors are not modelled: an array result type (src/js/naclbind.js:1401-1404 and 1443-1446), a variadic prototype with no arguments (1406-1408), void arguments (1410-1413) and arrays of void (1474-1476). The model's types are a superset of the buildable ones, and the proved properties hold for all of them.
- Run.RequestRun: src/c/run.c:98 calls `nb_request_parse`. No source file defines it. src/c/request.h:32 declares `nb_request_create` (src/c/request.c:111-119), and the model parses with that.
- Request.ParseSetHandles: (corrected reading) keys are read with the corrected `StrToLong.StringToLong`, not `nb_string_to_long` as written (src/c/request.c:77-89); see Findings.
- Request.ParseSetEntries: (corrected reading) each key is read with the corrected `StrToLong.StringToLong`, not `nb_string_to_long` as written (src/c/request.c:77-89); see Findings.
- Request.ParseSetHandle: (corrected reading) the key is read with the corrected `StrToLong.StringToLong`, not `nb_string_to_long` as written (src/c/request.c:77-89); see Findings.
- Run.SetHandle: (corrected reading) a "long" value goes through `Run.SetTagged`, which decodes it with the corrected `VarCodec.Int64`, not `nb_var_int64` as written (src/c/var.c:258); see Findings.
- Run.SetHandles: (corrected reading) each "long" value is decoded with the corrected `VarCodec.Int64` through `Run.SetTagged`, not `nb_var_int64` as written (src/c/var.c:258); see Findings.
- HelperTypes.TypesBuilder.AddTypeDict: the type a duplicate name leaves listed under its structure, and the types `AddTypeDicts` and `AddFunctionDict` registered before a failure, are stated through a ghost out-parameter `listed`; the source returns only the error.
- HelperTypes.Types.AddType: the key order of `type_data_dict` (a `defaultdict`) is not modelled; no template iterates it. The orders of `no_builtins` and `function_types`, which the templates iterate, are.
- Request.RequestCreate: "set" keys are read with the corrected `StrToLong.StringToLong`, not with `nb_string_to_long` as written (src/c/request.c:77-89). The as-written reading is `StrToLong.StringToLongAsWritten`; see Findings.
- TypeCasts.CanCast: pointee compatibility uses the corrected `IsCompatibleWith`, which compares prototype arguments pair by pair. The as-written version is `CanCastPointerAsWritten`; see Findings.
- Overload.GetBestViableFunction: the scan as written (`GetBestViableFunctionAsWritten`) is followed by a check that the candidate beats every other viable one; see Findings.
- HelperTypes.TypesBuilder.AddTypeDict: a `function` type description is read with the corrected `TypeDictToTypeData`. As written, it raises for a missing method (`TypeDictToTypeDataAsWritten`); see Findings.
- GenTypes.Mangled: `volatile` mangles as `V`, the Itanium C++ ABI letter. The source writes `v`, which collides with `void`. `MangledAsWritten` keeps `v`, and the demangling lemmas are proved for `V`; see Findings.
- GenTypes.CSpelling: an array of unknown size is spelled like the other arrays. As written, its spelling is dropped (`CSpellingAsWritten`); see Findings.
- HelperTypes.NewTypesBuilder: success with the builtin types is stated only under `LoadableSeq(BUILTIN_TYPES, {})`. The verifier cannot unfold the 46-entry literal table within the resource limit, so that condition is not discharged for the concrete table.
- MessageQueue.Queue.Dequeue: waiting on the condition variable until the queue is non-empty becomes the precondition `size > 0`. The mutex, the condition variable and the threads are not modelled.
- MessageQueue.Queue.Enqueue: the mutex and the wake-up signal are not modelled; the ring-buffer updates are.
- Gen.Accept: Python's `re.match(pattern, s)` is the parameter `matches`. Regular expressions are not modelled.
- Gen.StripRegions: works on the list of the text's lines, and the markers are whole lines. The source searches the text with `re.MULTILINE` patterns anchored at line boundaries. Splitting the text into lines is not modelled.
- HelperNames.CamelToSnake: case is ASCII only. Python's Unicode `isupper`, `islower` and `upper` are not modelled.
- HelperTypes.TypesBuilder.DictToType: the C string `c_str` of a type (py/helper.py:496-501) is not kept. It depends on each `TypeData.__str__`.
- GenTypes.TypeMemo.Resolve: an unexposed type whose canonical type is unexposed too makes `FromCindexType` (bin/gen_types.py:317-318) call itself on that canonical type without end, until Python raises `RecursionError`. The model returns the error `UnboundedRecursion` at once; the depth at which Python gives up is not modelled.
- GenTypes.TypeMemo: memo keys are abstract (`K`). Building the key from a clang type's kind and spelling (bin/gen_types.py:159-165) is not modelled.
- GenTypes.CSpelling: `GType` holds only supported kinds, so the 'Unsupported type kind' error of `GetCSpelling` (bin/gen_types.py:398) cannot arise. The same error when interning (bin/gen_types.py:318) is modelled in `TypeMemo.Resolve`.
- GenCollector.Collector.Collect: a declaration's type arrives as an id into a given type graph. Building that graph from clang types is `GenTypes.TypeMemo`, and the two are not linked in one run.
- EasyTemplate.LineNumbersKept: proved for templates whose lines end in `\n` only.
- TemplateFormat.FormatSegs: the meaning of a written line takes one string value per `{{expr}}`. Python's `str` of other values is not modelled, and neither is its parsing of the written literal and tuple. So a line holding `"""`, or an expression with a top-level comma, is outside what is proved.
- `Titlecase`, `CommaSep`, `GetFormatArg` and `GetArgString` (py/helper.py): not modelled. They only build template text.
- `FunctionsBuilder` and `FixTypes` (py/helper.py:523-549): not modelled. They call `AddTypeDicts` and `AddFunctionDict`, which are modelled, and key the resulting function records by name in an ordered dict.
- Clang, subprocesses, file I/O and the execution of the compiled template are not modelled: `Run`, `RunClangForArgs`, `CreateTranslationUnit`, `OutputForTemplate` and `IncludeFile` in bin/gen.py.
- Logging and error messages (`logging.debug`, `NB_ERROR`, exception texts): not modelled.
- Reference counting of `PP_Var`s (`AddRef`/`Release`): not modelled. Arrays and dictionaries are immutable values.
- PpVar.ArraySet: the browser's `PPB_VarArray.Set`, called by `nb_var_array_set` (src/c/var.c:98-103), is modelled as growing the array when needed and filling the gap with undefined values.
- Allocation failure (`realloc`, `calloc` or `malloc` returning NULL in src/c/handle.c and src/c/request.c): not modelled, because allocation in Dafny does not fail.
- Posting the response message and the command dispatch tables: the dispatcher is a parameter of `Run`.

## Findings

| source | as written | input that shows it | evidently intended | confidence | as-written member | corrected member |
|---|---|---|---|---|---|---|
| src/c/var.c:258 | the low half is sign-extended before the OR, so a value whose bit 31 is set loses its upper word | `nb_var_int64_create(2^31)` gives `["long", -2^31, 0]`, which decodes to -2^31 | zero-extend the low half, so decoding inverts `nb_var_int64_create` | not executed | VarCodec.Int64AsWrittenCounterexample | VarCodec.Int64RoundTrip |
| src/c/request.c:82 | the key is cut to 32 characters, and an empty key passes because `strtol` consumes nothing | the key of 32 `0`s then `1` reads as 0; the key `""` reads as 0 | the whole key must be one decimal number | not executed | StrToLong.AsWrittenTruncates | StrToLong.StringToLongRoundTrip |
| bin/gen_types.py:380-382 | the element's spelling is computed and discarded, so an array of unknown size spells as its qualifiers only | `int x[]` spells as the empty string | assign the result, giving `int x[]` | not executed | GenTypes.IncompleteArraySpelling | GenTypes.SpellingKeepsName |
| src/js/naclbind.js:1760 | `everyArrayPair` gets the two function types, which have no `length`, so prototype arguments are never compared | `int (*)(int)` casts exactly to `int (*)(int *)` | compare the argument types pair by pair | not executed | TypeCasts.CompatibleAsWrittenCounterexample | TypeCasts.PrototypeArgumentsCompatible |
| src/js/naclbind.js:1836-1844 | a tie is forgotten once a later candidate beats the earlier best, so a candidate that does not beat all others is returned | ranks `[3,1]`, `[1,3]`, `[3,2]`: candidate 2 is returned, though it does not beat candidate 1 | return -1 unless one candidate beats every other viable one | not executed | Overload.BestAsWrittenCounterexample | Overload.GetBestViableFunction |
| bin/gen_types.py:244-249 | `volatile` mangles as `v`, the code of `void` | `void f(void *, int)` and `void f(volatile int *)` both mangle as `FvPviE` | `V`, as in the Itanium C++ ABI | not executed | GenTypes.VolatileCollidesWithVoid | GenTypes.VolatileLetterSeparates |
| py/helper.py:476-477 | the `function` kind calls `self.FunctionDictToTypeData`, which does not exist (the method is `_FunctionDictToTypeData`) | a type description `{name: "callback", kind: "function", result: "void", args: []}` raises | read it as a function description | not executed | HelperTypes.FunctionKindExample | HelperTypes.FunctionKindFinding |

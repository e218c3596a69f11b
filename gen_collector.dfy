/** The generator's `Collector`: it walks the accepted declarations of a
    translation unit, numbers the functions, groups them by remapped name
    and by canonical signature, registers enums, and lists every type a
    function uses with the types it refers to first. */
module GenCollector {
  import opened Wrappers
  import opened StrOrder
  import Gen

  // ---------------------------------------------------------------------
  // The type graph the visitor walks

  /** Types are interned, so they are ids. `unqualified[t]` is the id of
      `t` without its qualifiers; `children[u]` lists the types an
      unqualified type `u` visits in turn: a pointee, an element type, a
      result and the argument types, the field types and nested records,
      an aliased type. A qualified type visits the same types as its
      unqualified version. */
  ghost predicate TypeGraph(unqualified: map<nat, nat>, children: map<nat, seq<nat>>)
  {
    (forall t :: t in unqualified ==> unqualified[t] in children) &&
    (forall u :: u in children ==> forall c :: c in children[u] ==> c in unqualified)
  }

  /** Visiting `u` visits `v` directly. */
  ghost predicate Edge(unqualified: map<nat, nat>, children: map<nat, seq<nat>>, u: nat, v: nat)
  {
    u in children && exists c :: c in children[u] && c in unqualified && unqualified[c] == v
  }

  /** Each type on `p` is visited directly by the one before it. */
  ghost predicate IsPath(unqualified: map<nat, nat>, children: map<nat, seq<nat>>, p: seq<nat>)
  {
    forall j, k {:trigger p[j], p[k]} :: 0 <= j && k == j + 1 && k < |p| ==> Edge(unqualified, children, p[j], p[k])
  }

  /** When `u` was appended to the post-order, each type it visits was
      already listed before it (`done`) or was still being visited, on
      the path `open` from the function's type down to `u`. */
  ghost predicate ChildrenDone(unqualified: map<nat, nat>, children: map<nat, seq<nat>>,
                               done: seq<nat>, open: seq<nat>, u: nat)
  {
    u in children &&
    forall c :: c in children[u] ==> c in unqualified && (unqualified[c] in done || unqualified[c] in open)
  }

  /** The lists of the walk: `topo` (the types exited, in order) and
      `stack` (the types entered and not yet exited) have no repeats and
      nothing in common, and together they hold exactly `types`. */
  ghost predicate Listed(types: set<nat>, topo: seq<nat>, stack: seq<nat>)
  {
    Distinct(topo) && Distinct(stack) &&
    (forall k :: 0 <= k < |topo| ==> topo[k] !in stack) &&
    (forall u :: u in types <==> u in topo || u in stack)
  }

  /** How `u` was exited: `open` was the stack then, a path ending with
      `u` whose types were all entered, and each type `u` visits was
      already exited (`done`) or on that path. */
  ghost predicate Exited(unqualified: map<nat, nat>, children: map<nat, seq<nat>>,
                         types: set<nat>, done: seq<nat>, open: seq<nat>, u: nat)
  {
    open != [] && open[|open| - 1] == u &&
    IsPath(unqualified, children, open) &&
    (forall k :: 0 <= k < |open| ==> open[k] in types) &&
    ChildrenDone(unqualified, children, done, open, u)
  }

  /** `pending[i]` is the stack at the moment `topo[i]` was exited. */
  ghost predicate PostOrder(unqualified: map<nat, nat>, children: map<nat, seq<nat>>,
                            types: set<nat>, topo: seq<nat>, pending: seq<seq<nat>>)
  {
    |pending| == |topo| &&
    forall i {:trigger pending[i]} :: 0 <= i < |topo| ==>
      Exited(unqualified, children, types, topo[..i], pending[i], topo[i])
  }

  /** What the visitor's state means, between any two steps of a walk:
      `types` holds the unqualified types entered so far, `topo` those
      already exited, in order, and `stack` those entered and not yet
      exited, each visited from the one below it. */
  ghost predicate TypesState(unqualified: map<nat, nat>, children: map<nat, seq<nat>>,
                             types: set<nat>, topo: seq<nat>, stack: seq<nat>, pending: seq<seq<nat>>)
  {
    Listed(types, topo, stack) &&
    types <= children.Keys &&
    IsPath(unqualified, children, stack) &&
    PostOrder(unqualified, children, types, topo, pending)
  }

  /** Entering more types keeps each recorded exit valid. */
  lemma PostOrderGrows(unqualified: map<nat, nat>, children: map<nat, seq<nat>>,
                       types: set<nat>, types': set<nat>, topo: seq<nat>, pending: seq<seq<nat>>)
    requires PostOrder(unqualified, children, types, topo, pending) && types <= types'
    ensures PostOrder(unqualified, children, types', topo, pending)
  {
    forall i | 0 <= i < |topo|
      ensures Exited(unqualified, children, types', topo[..i], pending[i], topo[i])
    {
      assert Exited(unqualified, children, types, topo[..i], pending[i], topo[i]);
    }
  }

  /** `EnterType` of a new type keeps the meaning of the state. */
  lemma EnterStep(unqualified: map<nat, nat>, children: map<nat, seq<nat>>,
                  types: set<nat>, topo: seq<nat>, stack: seq<nat>, pending: seq<seq<nat>>, u: nat)
    requires TypesState(unqualified, children, types, topo, stack, pending)
    requires u in children && u !in types
    requires stack == [] || Edge(unqualified, children, stack[|stack| - 1], u)
    ensures TypesState(unqualified, children, types + {u}, topo, stack + [u], pending)
  {
    var stack' := stack + [u];
    forall j, k | 0 <= j && k == j + 1 && k < |stack'|
      ensures Edge(unqualified, children, stack'[j], stack'[k])
    {
      if k < |stack| {
        assert stack'[j] == stack[j] && stack'[k] == stack[k];
      }
    }
    EnterListed(types, topo, stack, u);
    PostOrderGrows(unqualified, children, types, types + {u}, topo, pending);
  }

  lemma EnterListed(types: set<nat>, topo: seq<nat>, stack: seq<nat>, u: nat)
    requires Listed(types, topo, stack) && u !in types
    ensures Listed(types + {u}, topo, stack + [u])
  {
    var stack' := stack + [u];
    forall i, j | 0 <= i < j < |stack'|
      ensures stack'[i] != stack'[j]
    {
      if j < |stack| {
        assert stack'[i] == stack[i] && stack'[j] == stack[j];
      } else {
        assert stack'[i] == stack[i] && stack[i] in types;
      }
    }
    forall k | 0 <= k < |topo|
      ensures topo[k] !in stack'
    {
      assert topo[k] in types && topo[k] !in stack;
    }
  }

  /** A prefix of a path without repeats is a path without repeats. */
  lemma PathFront(unqualified: map<nat, nat>, children: map<nat, seq<nat>>, stack: seq<nat>, u: nat)
    requires Distinct(stack + [u]) && IsPath(unqualified, children, stack + [u])
    ensures Distinct(stack) && IsPath(unqualified, children, stack) && u !in stack
  {
    var full := stack + [u];
    forall k | 0 <= k < |stack|
      ensures stack[k] != u
    {
      assert full[k] == stack[k] && full[|stack|] == u;
    }
    forall j, k | 0 <= j && k == j + 1 && k < |stack|
      ensures Edge(unqualified, children, stack[j], stack[k])
    {
      assert full[j] == stack[j] && full[k] == stack[k];
    }
    forall i, j | 0 <= i < j < |stack|
      ensures stack[i] != stack[j]
    {
      assert full[i] == stack[i] && full[j] == stack[j];
    }
  }

  /** Moving the top of the stack to the end of the post-order keeps the
      lists' meaning. */
  lemma ExitListed(types: set<nat>, topo: seq<nat>, stack: seq<nat>, u: nat)
    requires Listed(types, topo, stack + [u]) && u !in stack
    requires Distinct(stack)
    ensures Listed(types, topo + [u], stack)
  {
    var full, topo' := stack + [u], topo + [u];
    assert u in full;
    assert u !in topo by {
      forall k | 0 <= k < |topo|
        ensures topo[k] != u
      {
        assert topo[k] !in full;
      }
    }
    forall i, j | 0 <= i < j < |topo'|
      ensures topo'[i] != topo'[j]
    {
      if j < |topo| {
        assert topo'[i] == topo[i] && topo'[j] == topo[j];
      } else {
        assert topo'[i] == topo[i];
      }
    }
    forall k | 0 <= k < |topo'|
      ensures topo'[k] !in stack
    {
      if k < |topo| {
        assert topo[k] !in full;
      }
    }
    forall v
      ensures v in types <==> v in topo' || v in stack
    {
      assert v in full <==> v in stack || v == u;
      assert v in topo' <==> v in topo || v == u;
    }
  }

  /** Recording the exit of `u` keeps the post-order's meaning. */
  lemma ExitPostOrder(unqualified: map<nat, nat>, children: map<nat, seq<nat>>,
                      types: set<nat>, topo: seq<nat>, pending: seq<seq<nat>>, full: seq<nat>, u: nat)
    requires PostOrder(unqualified, children, types, topo, pending)
    requires Exited(unqualified, children, types, topo, full, u)
    ensures PostOrder(unqualified, children, types, topo + [u], pending + [full])
  {
    var topo', pending' := topo + [u], pending + [full];
    forall i | 0 <= i < |topo'|
      ensures Exited(unqualified, children, types, topo'[..i], pending'[i], topo'[i])
    {
      if i < |topo| {
        assert topo'[..i] == topo[..i];
        assert Exited(unqualified, children, types, topo[..i], pending[i], topo[i]);
      } else {
        assert topo'[..i] == topo;
      }
    }
  }

  /** `ExitType` of the type on top of the stack, once each type it
      visits has been entered, keeps the meaning of the state. */
  lemma ExitStep(unqualified: map<nat, nat>, children: map<nat, seq<nat>>,
                 types: set<nat>, topo: seq<nat>, stack: seq<nat>, pending: seq<seq<nat>>, u: nat)
    requires TypesState(unqualified, children, types, topo, stack + [u], pending)
    requires u in children && forall c :: c in children[u] ==> c in unqualified && unqualified[c] in types
    ensures TypesState(unqualified, children, types, topo + [u], stack, pending + [stack + [u]])
  {
    var full := stack + [u];
    PathFront(unqualified, children, stack, u);
    ExitListed(types, topo, stack, u);
    assert Exited(unqualified, children, types, topo, full, u) by {
      forall k | 0 <= k < |full|
        ensures full[k] in types
      {
        assert full[k] in full;
      }
    }
    ExitPostOrder(unqualified, children, types, topo, pending, full, u);
  }

  /** The visited types are ranked: each type visits only types of lower
      rank, so the type graph has no cycle. */
  ghost predicate Ranked(unqualified: map<nat, nat>, children: map<nat, seq<nat>>, rank: nat -> nat)
  {
    forall u, c :: u in children && c in children[u] && c in unqualified ==> rank(unqualified[c]) < rank(u)
  }

  /** Along a path of visits the rank only falls. */
  lemma {:induction false} PathRanks(unqualified: map<nat, nat>, children: map<nat, seq<nat>>,
                                     rank: nat -> nat, p: seq<nat>)
    requires Ranked(unqualified, children, rank) && IsPath(unqualified, children, p) && p != []
    ensures forall k :: 0 <= k < |p| ==> rank(p[k]) >= rank(p[|p| - 1])
  {
    if |p| > 1 {
      var front := p[..|p| - 1];
      assert IsPath(unqualified, children, front) by {
        forall j, k | 0 <= j && k == j + 1 && k < |front|
          ensures Edge(unqualified, children, front[j], front[k])
        {
          assert front[j] == p[j] && front[k] == p[k];
        }
      }
      PathRanks(unqualified, children, rank, front);
      assert Edge(unqualified, children, p[|p| - 2], p[|p| - 1]);
      var c :| c in children[p[|p| - 2]] && c in unqualified && unqualified[c] == p[|p| - 1];
      forall k | 0 <= k < |p|
        ensures rank(p[k]) >= rank(p[|p| - 1])
      {
        if k < |p| - 1 {
          assert p[k] == front[k] && p[|p| - 2] == front[|front| - 1];
        }
      }
    }
  }

  /** Between walks (the stack is empty) every type an entry of the
      post-order visits is listed in it too: the walk is closed. */
  lemma TopoClosed(unqualified: map<nat, nat>, children: map<nat, seq<nat>>,
                   types: set<nat>, topo: seq<nat>, pending: seq<seq<nat>>)
    requires TypesState(unqualified, children, types, topo, [], pending)
    ensures forall u :: u in types <==> u in topo
    ensures forall i, c :: 0 <= i < |topo| && c in children[topo[i]] ==> c in unqualified && unqualified[c] in topo
  {
    forall i, c | 0 <= i < |topo| && c in children[topo[i]]
      ensures c in unqualified && unqualified[c] in topo
    {
      assert ChildrenDone(unqualified, children, topo[..i], pending[i], topo[i]);
      if unqualified[c] in topo[..i] {
        var j :| 0 <= j < i && topo[..i][j] == unqualified[c];
        assert topo[j] == unqualified[c];
      } else {
        var k :| 0 <= k < |pending[i]| && pending[i][k] == unqualified[c];
        assert pending[i][k] in types;
      }
    }
  }

  /** The post-order property: when the type graph has no cycle, every
      type a listed type visits is listed before it. */
  lemma ChildrenBeforeParents(unqualified: map<nat, nat>, children: map<nat, seq<nat>>, rank: nat -> nat,
                              types: set<nat>, topo: seq<nat>, stack: seq<nat>, pending: seq<seq<nat>>)
    requires TypesState(unqualified, children, types, topo, stack, pending)
    requires Ranked(unqualified, children, rank)
    ensures forall i, c :: 0 <= i < |topo| && c in children[topo[i]] ==> c in unqualified && unqualified[c] in topo[..i]
  {
    forall i, c | 0 <= i < |topo| && c in children[topo[i]]
      ensures c in unqualified && unqualified[c] in topo[..i]
    {
      assert ChildrenDone(unqualified, children, topo[..i], pending[i], topo[i]);
      PathRanks(unqualified, children, rank, pending[i]);
      assert rank(unqualified[c]) < rank(topo[i]);
      assert unqualified[c] !in pending[i] by {
        forall k | 0 <= k < |pending[i]|
          ensures pending[i][k] != unqualified[c]
        {
          assert rank(pending[i][k]) >= rank(topo[i]);
        }
      }
    }
  }

  // ---------------------------------------------------------------------
  // Functions and their buckets

  /** A collected function: its spelling, its type, the canonical type
      it is grouped under, and the id the collector gave it. */
  datatype Fn = Fn(spelling: string, typeId: nat, canonicalType: nat, id: nat)

  /** The functions of `fns` whose key is `k`, in order: a bucket of
      `functions_remapped` or of `function_types`. */
  function Bucket<K(==)>(fns: seq<Fn>, keys: seq<K>, k: K): (r: seq<Fn>)
    requires |fns| == |keys|
    ensures |r| <= |fns|
  {
    if fns == [] then []
    else Bucket(fns[..|fns| - 1], keys[..|keys| - 1], k) + (if keys[|keys| - 1] == k then [fns[|fns| - 1]] else [])
  }

  /** Appending a function appends it to its own bucket only. */
  lemma BucketAppend<K>(fns: seq<Fn>, keys: seq<K>, f: Fn, key: K, k: K)
    requires |fns| == |keys|
    ensures Bucket(fns + [f], keys + [key], k) == Bucket(fns, keys, k) + (if key == k then [f] else [])
  {
    assert (fns + [f])[..|fns|] == fns;
    assert (keys + [key])[..|keys|] == keys;
  }

  /** Each function in a bucket was collected under that bucket's key. */
  lemma {:induction false} BucketSound<K>(fns: seq<Fn>, keys: seq<K>, k: K, f: Fn)
    requires |fns| == |keys| && f in Bucket(fns, keys, k)
    ensures exists i :: 0 <= i < |fns| && fns[i] == f && keys[i] == k
  {
    var n := |fns| - 1;
    var front, keysFront := fns[..n], keys[..n];
    if f in Bucket(front, keysFront, k) {
      BucketSound(front, keysFront, k, f);
      var i :| 0 <= i < n && front[i] == f && keysFront[i] == k;
      assert fns[i] == f && keys[i] == k;
    } else {
      assert fns[n] == f && keys[n] == k;
    }
  }

  /** Each function collected under a key is in that key's bucket. */
  lemma {:induction false} BucketComplete<K>(fns: seq<Fn>, keys: seq<K>, k: K, i: nat)
    requires |fns| == |keys| && i < |fns| && keys[i] == k
    ensures fns[i] in Bucket(fns, keys, k)
  {
    var n := |fns| - 1;
    if i < n {
      var front, keysFront := fns[..n], keys[..n];
      assert front[i] == fns[i] && keysFront[i] == k;
      BucketComplete(front, keysFront, k, i);
    }
  }

  /** A function is in a bucket exactly when it is collected under that
      bucket's key. */
  lemma BucketMembers<K>(fns: seq<Fn>, keys: seq<K>, k: K, f: Fn)
    requires |fns| == |keys|
    ensures f in Bucket(fns, keys, k) <==> exists i :: 0 <= i < |fns| && fns[i] == f && keys[i] == k
  {
    if f in Bucket(fns, keys, k) {
      BucketSound(fns, keys, k, f);
    }
    if exists i :: 0 <= i < |fns| && fns[i] == f && keys[i] == k {
      var i :| 0 <= i < |fns| && fns[i] == f && keys[i] == k;
      BucketComplete(fns, keys, k, i);
    }
  }

  /** Python's `remap.get(name, name)`. */
  function RemappedName(remap: map<string, string>, name: string): (r: string)
    ensures name !in remap ==> r == name
  {
    if name in remap then remap[name] else name
  }

  /** The names `_VisitFunction` files each of `fns` under. */
  function RemappedNames(remap: map<string, string>, fns: seq<Fn>): (r: seq<string>)
    ensures |r| == |fns| && forall k :: 0 <= k < |fns| ==> r[k] == RemappedName(remap, fns[k].spelling)
  {
    seq(|fns|, k requires 0 <= k < |fns| => RemappedName(remap, fns[k].spelling))
  }

  /** The names of a run of functions, then of the next run. */
  lemma RemappedNamesAppend(remap: map<string, string>, fns: seq<Fn>, more: seq<Fn>)
    ensures RemappedNames(remap, fns + more) == RemappedNames(remap, fns) + RemappedNames(remap, more)
  {
  }

  /** The names filed over two runs of rounds are those of the functions
      added over both. */
  lemma NamesStep(remap: map<string, string>, fns0: seq<Fn>, fns1: seq<Fn>, fns2: seq<Fn>,
                  names0: seq<string>, names1: seq<string>, names2: seq<string>)
    requires fns0 <= fns1 <= fns2
    requires names1 == names0 + RemappedNames(remap, fns1[|fns0|..])
    requires names2 == names1 + RemappedNames(remap, fns2[|fns1|..])
    ensures names2 == names0 + RemappedNames(remap, fns2[|fns0|..])
  {
    SliceSplit(fns0, fns1, fns2);
    RemappedNamesAppend(remap, fns1[|fns0|..], fns2[|fns1|..]);
    ConcatStep(names0, RemappedNames(remap, fns1[|fns0|..]), RemappedNames(remap, fns2[|fns1|..]),
               names1, names2, RemappedNames(remap, fns2[|fns0|..]));
  }

  /** Appending two runs in turn appends their concatenation. */
  lemma ConcatStep(names0: seq<string>, n1: seq<string>, n2: seq<string>,
                   names1: seq<string>, names2: seq<string>, both: seq<string>)
    requires names1 == names0 + n1 && names2 == names1 + n2 && both == n1 + n2
    ensures names2 == names0 + both
  {
  }

  /** What follows a prefix of a prefix is the two pieces in turn. */
  lemma SliceSplit(fns0: seq<Fn>, fns1: seq<Fn>, fns2: seq<Fn>)
    requires fns0 <= fns1 <= fns2
    ensures fns2[|fns0|..] == fns1[|fns0|..] + fns2[|fns1|..]
  {
  }

  /** `fn.VisitTypes(self)` has run for each of `fns`: the unqualified
      version of each function's type is among the visited `types`. */
  ghost predicate TypesVisited(unqualified: map<nat, nat>, fns: seq<Fn>, types: set<nat>)
  {
    forall f :: f in fns ==> f.typeId in unqualified && unqualified[f.typeId] in types
  }

  /** One filed function whose type was visited. */
  lemma TypesVisitedOne(unqualified: map<nat, nat>, fns0: seq<Fn>, fn: Fn, types: set<nat>)
    requires fn.typeId in unqualified && unqualified[fn.typeId] in types
    ensures TypesVisited(unqualified, (fns0 + [fn])[|fns0|..], types)
  {
    assert (fns0 + [fn])[|fns0|..] == [fn];
  }

  /** Visiting more types keeps the earlier functions' types visited, and
      the functions added over two runs of rounds are those of both. */
  lemma TypesVisitedStep(unqualified: map<nat, nat>, fns0: seq<Fn>, fns1: seq<Fn>, fns2: seq<Fn>,
                         types1: set<nat>, types2: set<nat>)
    requires fns0 <= fns1 <= fns2 && types1 <= types2
    requires TypesVisited(unqualified, fns1[|fns0|..], types1)
    requires TypesVisited(unqualified, fns2[|fns1|..], types2)
    ensures TypesVisited(unqualified, fns2[|fns0|..], types2)
  {
    SliceSplit(fns0, fns1, fns2);
  }

  /** `TypesVisited` of the functions added after `fns0`, by index. */
  lemma TypesVisitedAt(unqualified: map<nat, nat>, fns0: seq<Fn>, fns: seq<Fn>, types: set<nat>)
    requires |fns0| <= |fns| && TypesVisited(unqualified, fns[|fns0|..], types)
    ensures forall k :: |fns0| <= k < |fns| ==> fns[k].typeId in unqualified && unqualified[fns[k].typeId] in types
  {
    forall k | |fns0| <= k < |fns|
      ensures fns[k].typeId in unqualified && unqualified[fns[k].typeId] in types
    {
      assert fns[k] == fns[|fns0|..][k - |fns0|];
    }
  }

  /** The functions added after `fns0` are `added`. */
  lemma NamesAdded(remap: map<string, string>, fns0: seq<Fn>, added: seq<Fn>, fns: seq<Fn>)
    requires fns == fns0 + added
    ensures fns[|fns0|..] == added
  {
  }

  /** `d.get(k, [])`. */
  function BucketOf<K>(m: map<K, seq<Fn>>, k: K): seq<Fn>
  {
    if k in m then m[k] else []
  }

  /** The function fields of the collector: ids are positions, and each
      bucket dict holds, for each key seen, the functions collected under
      it in order. `names[k]` and `signatures[k]` are the keys the `k`-th
      function was filed under. */
  ghost predicate FunctionsState(functions: seq<Fn>, nextId: nat,
                                 names: seq<string>, remapped: map<string, seq<Fn>>,
                                 signatures: seq<nat>, byType: map<nat, seq<Fn>>)
  {
    nextId == |functions| &&
    (forall k :: 0 <= k < |functions| ==> functions[k].id == k) &&
    |names| == |functions| && |signatures| == |functions| &&
    (forall k :: 0 <= k < |functions| ==> signatures[k] == functions[k].canonicalType) &&
    remapped == BucketMap(functions, names) && byType == BucketMap(functions, signatures)
  }

  /** The bucket dict `setdefault(key, []).append(f)` builds, filing
      each function of `fns` under its key in turn. */
  function BucketMap<K>(fns: seq<Fn>, keys: seq<K>): map<K, seq<Fn>>
    requires |fns| == |keys|
  {
    if fns == [] then map[]
    else
      var n := |fns| - 1;
      var d := BucketMap(fns[..n], keys[..n]);
      d[keys[n] := BucketOf(d, keys[n]) + [fns[n]]]
  }

  /** Filing one more function appends it to its key's bucket. */
  lemma FileStep<K>(fns: seq<Fn>, keys: seq<K>, f: Fn, key: K)
    requires |fns| == |keys|
    ensures var d := BucketMap(fns, keys);
      BucketMap(fns + [f], keys + [key]) == d[key := BucketOf(d, key) + [f]]
  {
    assert (fns + [f])[..|fns|] == fns;
    assert (keys + [key])[..|keys|] == keys;
  }

  /** The dict the filing builds has exactly the keys seen, and under
      each the functions filed under it, in order. */
  lemma {:induction false} BucketMapBuckets<K>(fns: seq<Fn>, keys: seq<K>, k: K)
    requires |fns| == |keys|
    ensures k in BucketMap(fns, keys) <==> k in keys
    ensures k in BucketMap(fns, keys) ==> BucketMap(fns, keys)[k] == Bucket(fns, keys, k)
  {
    if fns != [] {
      var n := |fns| - 1;
      BucketMapBuckets(fns[..n], keys[..n], k);
      assert keys == keys[..n] + [keys[n]];
      if k !in keys[..n] {
        BucketEmpty(fns[..n], keys[..n], k);
      }
    }
  }

  /** `_VisitFunction`'s bookkeeping keeps the meaning of the function
      fields. */
  lemma AddFunctionStep(functions: seq<Fn>, nextId: nat,
                        names: seq<string>, remapped: map<string, seq<Fn>>,
                        signatures: seq<nat>, byType: map<nat, seq<Fn>>,
                        f: Fn, name: string)
    requires FunctionsState(functions, nextId, names, remapped, signatures, byType)
    requires f.id == nextId
    ensures FunctionsState(functions + [f], nextId + 1,
                           names + [name], remapped[name := BucketOf(remapped, name) + [f]],
                           signatures + [f.canonicalType],
                           byType[f.canonicalType := BucketOf(byType, f.canonicalType) + [f]])
  {
    FileStep(functions, names, f, name);
    FileStep(functions, signatures, f, f.canonicalType);
  }

  /** A key nobody was filed under has an empty bucket. */
  lemma {:induction false} BucketEmpty<K>(fns: seq<Fn>, keys: seq<K>, k: K)
    requires |fns| == |keys| && k !in keys
    ensures Bucket(fns, keys, k) == []
  {
    if fns != [] {
      var n := |fns| - 1;
      assert k !in keys[..n] by {
        forall j | 0 <= j < n
          ensures keys[..n][j] != k
        {
          assert keys[..n][j] == keys[j];
        }
      }
      BucketEmpty(fns[..n], keys[..n], k);
    }
  }

  // ---------------------------------------------------------------------
  // Enums

  /** A collected enum: the JS tag it is registered under and its
      constants. */
  datatype Enum = Enum(spelling: string, constants: seq<(string, int)>)

  /** The enum registry: each enum is registered under its spelling. */
  ghost predicate EnumsState(enums: map<string, Enum>)
  {
    forall n :: n in enums ==> enums[n].spelling == n
  }

  // ---------------------------------------------------------------------
  // Cursors

  datatype CursorKind = FunctionDecl | EnumDecl | OtherCursor

  /** A clang cursor: its kind, the file it is in, its spelling, the
      type of the declaration (and that type's canonical type), the JS tag
      an enum declaration is registered under, the constants of an enum
      declaration, and the cursors below it. */
  datatype Cursor = Cursor(
    kind: CursorKind, fileName: string, spelling: string,
    typeId: nat, canonicalType: nat, jsTag: string, constants: seq<(string, int)>,
    children: seq<Cursor>)

  /** `gen_types.Iter` over a list of sibling cursors: each function or
      enum declaration is yielded, without looking inside it; any other
      cursor is searched in turn, depth first. */
  function IterAll(cs: seq<Cursor>): (r: seq<Cursor>)
    ensures forall d :: d in r ==> d.kind == FunctionDecl || d.kind == EnumDecl
    decreases cs
  {
    if cs == [] then []
    else
      assert cs[0] in cs;
      var here := if cs[0].kind == FunctionDecl || cs[0].kind == EnumDecl then [cs[0]] else IterAll(cs[0].children);
      here + IterAll(cs[1..])
  }

  /** `gen_types.Iter`: the declarations below the translation unit. */
  function Iter(root: Cursor): seq<Cursor>
  {
    IterAll(root.children)
  }

  /** Every function or enum declaration among the siblings is yielded,
      and in their order. */
  lemma {:induction false} IterYieldsDeclarations(cs: seq<Cursor>)
    ensures forall i :: 0 <= i < |cs| && (cs[i].kind == FunctionDecl || cs[i].kind == EnumDecl) ==> cs[i] in IterAll(cs)
  {
    if cs != [] {
      IterYieldsDeclarations(cs[1..]);
      forall i | 0 < i < |cs|
        ensures cs[i] == cs[1..][i - 1]
      {
      }
    }
  }

  // ---------------------------------------------------------------------
  // What `Collect` collects

  /** The cursors of `cs` the acceptor accepts, in order. */
  function AcceptedOf(cs: seq<Cursor>, acc: Gen.Acceptor, matches: (string, string) -> bool): (r: seq<Cursor>)
    ensures forall c :: c in r ==> c in cs
  {
    if cs == [] then []
    else
      var last := cs[|cs| - 1];
      AcceptedOf(cs[..|cs| - 1], acc, matches) +
        (if Gen.Accepted(acc, last.fileName, last.spelling, matches) then [last] else [])
  }

  /** A cursor is accepted exactly when the acceptor accepts its file or
      its name. */
  lemma {:induction false} AcceptedOfMembers(cs: seq<Cursor>, acc: Gen.Acceptor, matches: (string, string) -> bool, c: Cursor)
    ensures c in AcceptedOf(cs, acc, matches) <==> c in cs && Gen.Accepted(acc, c.fileName, c.spelling, matches)
  {
    if cs != [] {
      var front := cs[..|cs| - 1];
      AcceptedOfMembers(front, acc, matches, c);
      assert cs == front + [cs[|cs| - 1]];
    }
  }

  /** The functions collected from the declarations `cs`, numbered from
      `firstId` on. */
  function FunctionsOf(cs: seq<Cursor>, firstId: nat): (r: seq<Fn>)
    ensures forall k :: 0 <= k < |r| ==> r[k].id == firstId + k
  {
    if cs == [] then []
    else
      var front := FunctionsOf(cs[..|cs| - 1], firstId);
      var last := cs[|cs| - 1];
      front + (if last.kind == FunctionDecl then [Fn(last.spelling, last.typeId, last.canonicalType, firstId + |front|)] else [])
  }

  /** The enum registry after the declarations `cs`, the first enum of a
      spelling winning. */
  function EnumsOf(enums: map<string, Enum>, cs: seq<Cursor>): (r: map<string, Enum>)
    ensures enums.Keys <= r.Keys && forall n :: n in enums ==> r[n] == enums[n]
  {
    if cs == [] then enums
    else
      var front := EnumsOf(enums, cs[..|cs| - 1]);
      var last := cs[|cs| - 1];
      if last.kind == EnumDecl && last.jsTag !in front then front[last.jsTag := Enum(last.jsTag, last.constants)]
      else front
  }

  /** One more declaration: how the three folds above grow. */
  lemma CollectStep(cs: seq<Cursor>, i: nat, acc: Gen.Acceptor, matches: (string, string) -> bool)
    requires i < |cs|
    ensures var c := cs[i];
      AcceptedOf(cs[..i + 1], acc, matches) ==
        AcceptedOf(cs[..i], acc, matches) + (if Gen.Accepted(acc, c.fileName, c.spelling, matches) then [c] else [])
  {
    assert cs[..i + 1][..i] == cs[..i];
  }

  lemma FoldsStep(cs: seq<Cursor>, c: Cursor, enums: map<string, Enum>, firstId: nat)
    ensures FunctionsOf(cs + [c], firstId) ==
      FunctionsOf(cs, firstId) +
      (if c.kind == FunctionDecl then [Fn(c.spelling, c.typeId, c.canonicalType, firstId + |FunctionsOf(cs, firstId)|)] else [])
    ensures EnumsOf(enums, cs + [c]) ==
      var m := EnumsOf(enums, cs);
      if c.kind == EnumDecl && c.jsTag !in m then m[c.jsTag := Enum(c.jsTag, c.constants)] else m
  {
    assert (cs + [c])[..|cs|] == cs;
  }

  /** After the first `i` declarations of `cs`, the collector holds the
      functions and enums the folds above describe. */
  ghost predicate Collected(cs: seq<Cursor>, i: nat, acc: Gen.Acceptor, matches: (string, string) -> bool,
                            fns0: seq<Fn>, enums0: map<string, Enum>, fns: seq<Fn>, enums: map<string, Enum>)
  {
    i <= |cs| &&
    var accepted := AcceptedOf(cs[..i], acc, matches);
    fns == fns0 + FunctionsOf(accepted, |fns0|) && enums == EnumsOf(enums0, accepted)
  }

  /** One round of `Collect`: an accepted function is appended with the
      next id, an accepted enum is registered unless its tag is taken, and
      anything else changes nothing. */
  lemma CollectRound(cs: seq<Cursor>, i: nat, next: nat, acc: Gen.Acceptor, matches: (string, string) -> bool,
                     fns0: seq<Fn>, enums0: map<string, Enum>, fns: seq<Fn>, enums: map<string, Enum>,
                     fns': seq<Fn>, enums': map<string, Enum>)
    requires i < |cs| && next == i + 1 && Collected(cs, i, acc, matches, fns0, enums0, fns, enums)
    requires var c := cs[i];
      var ok := Gen.Accepted(acc, c.fileName, c.spelling, matches);
      if ok && c.kind == FunctionDecl then
        fns' == fns + [Fn(c.spelling, c.typeId, c.canonicalType, |fns|)] && enums' == enums
      else if ok && c.kind == EnumDecl then
        fns' == fns && enums' == (if c.jsTag in enums then enums else enums[c.jsTag := Enum(c.jsTag, c.constants)])
      else
        fns' == fns && enums' == enums
    ensures Collected(cs, next, acc, matches, fns0, enums0, fns', enums')
  {
    var c := cs[i];
    var prior := AcceptedOf(cs[..i], acc, matches);
    CollectStep(cs, i, acc, matches);
    if Gen.Accepted(acc, c.fileName, c.spelling, matches) {
      var accepted := prior + [c];
      assert AcceptedOf(cs[..i + 1], acc, matches) == accepted;
      FoldsStep(prior, c, enums0, |fns0|);
      var front := FunctionsOf(prior, |fns0|);
      if c.kind == FunctionDecl {
        var f := Fn(c.spelling, c.typeId, c.canonicalType, |fns0| + |front|);
        assert FunctionsOf(accepted, |fns0|) == front + [f];
        assert fns' == fns0 + (front + [f]);
      } else {
        assert FunctionsOf(accepted, |fns0|) == front + [];
        assert front + [] == front;
      }
    } else {
      assert AcceptedOf(cs[..i + 1], acc, matches) == prior;
    }
  }

  /** Once every cursor is visited, the accepted ones are all of them. */
  lemma CollectedAll(cs: seq<Cursor>, acc: Gen.Acceptor, matches: (string, string) -> bool,
                     fns0: seq<Fn>, enums0: map<string, Enum>, fns: seq<Fn>, enums: map<string, Enum>)
    requires Collected(cs, |cs|, acc, matches, fns0, enums0, fns, enums)
    ensures var accepted := AcceptedOf(cs, acc, matches);
      fns == fns0 + FunctionsOf(accepted, |fns0|) && enums == EnumsOf(enums0, accepted)
  {
    assert cs[..|cs|] == cs;
  }

  // ---------------------------------------------------------------------
  // The collector

  /** `Collector`. The types fields are the visitor's state; the function
      fields are the list of functions and its two bucket dicts; `enums`
      is the enum registry. Each dict also keeps the list of its keys, in
      the order they were first set. */
  class Collector {
    const unqualified: map<nat, nat>
    const children: map<nat, seq<nat>>
    var types: set<nat>
    var typesTopo: seq<nat>
    ghost var stack: seq<nat>
    ghost var pending: seq<seq<nat>>
    var functions: seq<Fn>
    var functionsRemapped: map<string, seq<Fn>>
    ghost var names: seq<string>
    var functionTypes: map<nat, seq<Fn>>
    ghost var signatures: seq<nat>
    var enums: map<string, Enum>
    var nextId: nat

    /** The visitor's state means what `TypesState` says. */
    ghost predicate Walking()
      reads this`types, this`typesTopo, this`stack, this`pending
    {
      TypeGraph(unqualified, children) &&
      TypesState(unqualified, children, types, typesTopo, stack, pending)
    }

    /** The function fields mean what `FunctionsState` says. */
    ghost predicate Filed()
      reads this`functions, this`nextId, this`names, this`functionsRemapped, this`signatures, this`functionTypes
    {
      FunctionsState(functions, nextId, names, functionsRemapped, signatures, functionTypes)
    }

    /** The enum registry means what `EnumsState` says. */
    ghost predicate Registered()
      reads this`enums
    {
      EnumsState(enums)
    }

    ghost predicate Valid()
      reads this
    {
      Walking() && stack == [] && Filed() && Registered()
    }

    constructor(unqualified: map<nat, nat>, children: map<nat, seq<nat>>)
      requires TypeGraph(unqualified, children)
      ensures Valid()
      ensures this.unqualified == unqualified && this.children == children
      ensures types == {} && typesTopo == [] && functions == [] && nextId == 0
      ensures functionsRemapped == map[] && functionTypes == map[] && enums == map[]
    {
      this.unqualified := unqualified;
      this.children := children;
      types := {};
      typesTopo := [];
      stack := [];
      pending := [];
      functions := [];
      functionsRemapped := map[];
      names := [];
      functionTypes := map[];
      signatures := [];
      enums := map[];
      nextId := 0;
    }

    /** `Type.VisitTypes` with this collector as the visitor: `EnterType`
        admits an unqualified type once; the types it visits are visited
        next, and `ExitType` then appends it to `types_topo`. */
    method VisitType(t: nat)
      requires Walking() && t in unqualified
      requires stack == [] || Edge(unqualified, children, stack[|stack| - 1], unqualified[t])
      modifies this`types, this`typesTopo, this`stack, this`pending
      ensures Walking() && stack == old(stack)
      ensures unqualified[t] in types && old(types) <= types && old(typesTopo) <= typesTopo
      ensures unqualified[t] in old(types) ==> types == old(types) && typesTopo == old(typesTopo)
      ensures unqualified[t] !in old(types) ==> typesTopo[|typesTopo| - 1] == unqualified[t]
      decreases children.Keys - types
    {
      var u := unqualified[t];
      if u in types {
        return;
      }
      EnterStep(unqualified, children, types, typesTopo, stack, pending, u);
      types := types + {u};
      stack := stack + [u];
      var kids := children[u];
      for i := 0 to |kids|
        invariant Walking() && stack == old(stack) + [u]
        invariant old(types) + {u} <= types && old(typesTopo) <= typesTopo
        invariant forall j :: 0 <= j < i ==> unqualified[kids[j]] in types
      {
        assert kids[i] in children[u];
        assert children.Keys - types < children.Keys - old(types) by {
          assert u in children.Keys - old(types) && u !in children.Keys - types;
        }
        VisitType(kids[i]);
      }
      ExitStep(unqualified, children, types, typesTopo, old(stack), pending, u);
      typesTopo := typesTopo + [u];
      pending := pending + [stack];
      stack := old(stack);
    }

    /** The bookkeeping half of `_VisitFunction`: gives the function the
        next id, and files it in the list, under its remapped name, and
        under its canonical type. */
    method FileFunction(spelling: string, typeId: nat, canonicalType: nat, name: string)
      returns (fn: Fn)
      requires Filed()
      modifies this`functions, this`nextId, this`names, this`functionsRemapped, this`signatures, this`functionTypes
      ensures Filed()
      ensures fn == Fn(spelling, typeId, canonicalType, old(nextId)) && nextId == old(nextId) + 1
      ensures functions == old(functions) + [fn] && names == old(names) + [name]
      ensures functionsRemapped == old(functionsRemapped)[name := BucketOf(old(functionsRemapped), name) + [fn]]
      ensures functionTypes == old(functionTypes)[canonicalType := BucketOf(old(functionTypes), canonicalType) + [fn]]
    {
      fn := Fn(spelling, typeId, canonicalType, nextId);
      AddFunctionStep(functions, nextId, names, functionsRemapped, signatures, functionTypes, fn, name);
      nextId, functions, names := nextId + 1, functions + [fn], names + [name];
      functionsRemapped := functionsRemapped[name := BucketOf(functionsRemapped, name) + [fn]];
      signatures := signatures + [canonicalType];
      functionTypes := functionTypes[canonicalType := BucketOf(functionTypes, canonicalType) + [fn]];
    }

    /** `_VisitFunction`: visits the function's type, then files the
        function under its remapped name. */
    method VisitFunction(spelling: string, typeId: nat, canonicalType: nat, remap: map<string, string>)
      returns (fn: Fn)
      requires Valid() && typeId in unqualified
      modifies this
      ensures Valid()
      ensures fn == Fn(spelling, typeId, canonicalType, old(nextId)) && nextId == old(nextId) + 1
      ensures functions == old(functions) + [fn] && names == old(names) + [RemappedName(remap, spelling)]
      ensures var name := RemappedName(remap, spelling);
        functionsRemapped == old(functionsRemapped)[name := BucketOf(old(functionsRemapped), name) + [fn]]
      ensures functionTypes == old(functionTypes)[canonicalType := BucketOf(old(functionTypes), canonicalType) + [fn]]
      ensures enums == old(enums)
      ensures unqualified[typeId] in types && old(types) <= types && old(typesTopo) <= typesTopo
    {
      VisitType(typeId);
      fn := FileFunction(spelling, typeId, canonicalType, RemappedName(remap, spelling));
    }

    /** `_VisitEnum`: the first enum of a spelling is kept. */
    method VisitEnum(e: Enum)
      requires Valid()
      modifies this`enums
      ensures Valid()
      ensures enums == if e.spelling in old(enums) then old(enums) else old(enums)[e.spelling := e]
    {
      if e.spelling in enums {
        return;
      }
      enums := enums[e.spelling := e];
    }

    /** `SortedFunctionTypes`: the buckets of functions by canonical
        type, in ascending order of the type's mangled name. */
    method SortedFunctionTypes(mangled: nat -> string) returns (items: seq<(nat, seq<Fn>)>)
      ensures ItemsOf(items, functionTypes) && SortedBy(KeysOf(items), mangled)
    {
      items := SortedItems(functionTypes, mangled);
    }

    /** `SortedRemappedFunctions`: the buckets of functions by remapped
        name, in ascending name order. */
    method SortedRemappedFunctions() returns (items: seq<(string, seq<Fn>)>)
      ensures ItemsOf(items, functionsRemapped) && SortedBy(KeysOf(items), Itself)
    {
      items := SortedItems(functionsRemapped, Itself);
    }

    /** `SortedEnums`: the registered enums in ascending order of their
        spelling. */
    method SortedEnums() returns (items: seq<(string, Enum)>)
      ensures ItemsOf(items, enums) && SortedBy(KeysOf(items), Itself)
    {
      items := SortedItems(enums, Itself);
    }

    /** One round of `Collect`: an accepted function declaration is
        visited by `_VisitFunction`, an accepted enum declaration by
        `_VisitEnum`; any other accepted cursor is the "unexpected cursor
        type" error, and a rejected cursor is skipped. */
    method VisitCursor(c: Cursor, acceptor: Gen.Acceptor, matches: (string, string) -> bool, remap: map<string, string>)
      returns (unexpected: bool)
      requires Valid() && (c.kind == FunctionDecl ==> c.typeId in unqualified)
      modifies this
      ensures Valid()
      ensures var ok := Gen.Accepted(acceptor, c.fileName, c.spelling, matches);
        unexpected == (ok && c.kind == OtherCursor) &&
        if ok && c.kind == FunctionDecl then
          functions == old(functions) + [Fn(c.spelling, c.typeId, c.canonicalType, |old(functions)|)] && enums == old(enums)
        else if ok && c.kind == EnumDecl then
          functions == old(functions) &&
          enums == (if c.jsTag in old(enums) then old(enums) else old(enums)[c.jsTag := Enum(c.jsTag, c.constants)])
        else
          functions == old(functions) && enums == old(enums)
      ensures names == old(names) + RemappedNames(remap, functions[|old(functions)|..])
      ensures old(types) <= types && old(typesTopo) <= typesTopo
      ensures TypesVisited(unqualified, functions[|old(functions)|..], types)
    {
      unexpected := false;
      var ok := Gen.Accept(acceptor, c.fileName, c.spelling, matches);
      assert functions[|functions|..] == [];
      if ok {
        if c.kind == FunctionDecl {
          ghost var fns0 := functions;
          var fn := VisitFunction(c.spelling, c.typeId, c.canonicalType, remap);
          TypesVisitedOne(unqualified, fns0, fn, types);
        } else if c.kind == EnumDecl {
          VisitEnum(Enum(c.jsTag, c.constants));
        } else {
          unexpected := true;
        }
      }
    }

    /** One round of the loop of `Collect`, on the `i`-th declaration. */
    method CollectAt(cs: seq<Cursor>, i: nat, acceptor: Gen.Acceptor, matches: (string, string) -> bool,
                     remap: map<string, string>, ghost fns0: seq<Fn>, ghost enums0: map<string, Enum>)
      requires Valid() && i < |cs| && Collected(cs, i, acceptor, matches, fns0, enums0, functions, enums)
      requires cs[i].kind == FunctionDecl || cs[i].kind == EnumDecl
      requires cs[i].kind == FunctionDecl ==> cs[i].typeId in unqualified
      modifies this
      ensures Valid() && Collected(cs, i + 1, acceptor, matches, fns0, enums0, functions, enums)
      ensures old(functions) <= functions && names == old(names) + RemappedNames(remap, functions[|old(functions)|..])
      ensures old(types) <= types && old(typesTopo) <= typesTopo
      ensures TypesVisited(unqualified, functions[|old(functions)|..], types)
    {
      ghost var fns, registry := functions, enums;
      var unexpected := VisitCursor(cs[i], acceptor, matches, remap);
      CollectRound(cs, i, i + 1, acceptor, matches, fns0, enums0, fns, registry, functions, enums);
    }

    /** `Collect`: every declaration `Iter` yields that the acceptor
        accepts is visited, in order. `Iter` yields nothing but function
        and enum declarations, so the error for an unexpected cursor is
        never raised. */
    method Collect(root: Cursor, acceptor: Gen.Acceptor, matches: (string, string) -> bool, remap: map<string, string>)
      requires Valid()
      requires forall c :: c in Iter(root) && c.kind == FunctionDecl ==> c.typeId in unqualified
      modifies this
      ensures Valid()
      ensures var accepted := AcceptedOf(Iter(root), acceptor, matches);
        functions == old(functions) + FunctionsOf(accepted, old(nextId)) &&
        enums == EnumsOf(old(enums), accepted)
      ensures var accepted := AcceptedOf(Iter(root), acceptor, matches);
        functionsRemapped == BucketMap(functions, old(names) + RemappedNames(remap, FunctionsOf(accepted, old(nextId))))
      ensures old(types) <= types && old(typesTopo) <= typesTopo
      ensures forall k :: |old(functions)| <= k < |functions| ==>
        functions[k].typeId in unqualified && unqualified[functions[k].typeId] in types
    {
      var cs := Iter(root);
      assert old(nextId) == |old(functions)|;
      assert old(functions)[|old(functions)|..] == [];
      var i: nat := 0;
      while i < |cs|
        invariant Valid()
        invariant Collected(cs, i, acceptor, matches, old(functions), old(enums), functions, enums)
        invariant old(functions) <= functions
        invariant names == old(names) + RemappedNames(remap, functions[|old(functions)|..])
        invariant old(types) <= types && old(typesTopo) <= typesTopo
        invariant TypesVisited(unqualified, functions[|old(functions)|..], types)
        decreases |cs| - i
      {
        assert cs[i] in cs;
        ghost var before, namesBefore, typesBefore := functions, names, types;
        CollectAt(cs, i, acceptor, matches, remap, old(functions), old(enums));
        NamesStep(remap, old(functions), before, functions, old(names), namesBefore, names);
        TypesVisitedStep(unqualified, old(functions), before, functions, typesBefore, types);
        i := i + 1;
      }
      TypesVisitedAt(unqualified, old(functions), functions, types);
      CollectedAll(cs, acceptor, matches, old(functions), old(enums), functions, enums);
      NamesAdded(remap, old(functions), FunctionsOf(AcceptedOf(cs, acceptor, matches), old(nextId)), functions);
    }
  }
}

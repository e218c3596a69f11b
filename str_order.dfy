/** The order the generator sorts its output by: Python compares strings
    code point by code point, a proper prefix first, and `sorted` is a
    stable sort on a key. */
module StrOrder {

  /** Lexicographic order on strings, as Python's `<=` on `str`. */
  predicate StrLe(a: string, b: string)
  {
    if a == [] then true
    else if b == [] then false
    else if a[0] != b[0] then a[0] < b[0]
    else StrLe(a[1..], b[1..])
  }

  lemma {:induction false} StrLeRefl(a: string)
    ensures StrLe(a, a)
  {
    if a != [] {
      StrLeRefl(a[1..]);
    }
  }

  lemma {:induction false} StrLeTotal(a: string, b: string)
    ensures StrLe(a, b) || StrLe(b, a)
  {
    if a != [] && b != [] && a[0] == b[0] {
      StrLeTotal(a[1..], b[1..]);
    }
  }

  lemma {:induction false} StrLeAntisymmetric(a: string, b: string)
    requires StrLe(a, b) && StrLe(b, a)
    ensures a == b
  {
    if a != [] && b != [] {
      StrLeAntisymmetric(a[1..], b[1..]);
      assert a == [a[0]] + a[1..] && b == [b[0]] + b[1..];
    }
  }

  lemma {:induction false} StrLeTransitive(a: string, b: string, c: string)
    requires StrLe(a, b) && StrLe(b, c)
    ensures StrLe(a, c)
  {
    if a != [] && b != [] && c != [] && a[0] == b[0] && b[0] == c[0] {
      StrLeTransitive(a[1..], b[1..], c[1..]);
    }
  }

  /** `xs` is in ascending order of `key`, as `sorted(xs, key=key)`
      leaves it. */
  ghost predicate SortedBy<T>(xs: seq<T>, key: T -> string)
  {
    forall i, j :: 0 <= i < j < |xs| ==> StrLe(key(xs[i]), key(xs[j]))
  }

  /** No element occurs twice. */
  predicate Distinct<T(==)>(xs: seq<T>)
  {
    forall i, j :: 0 <= i < j < |xs| ==> xs[i] != xs[j]
  }

  /** A string as its own sort key. */
  function Itself(s: string): string
  {
    s
  }

  /** The keys of a list of dict items. */
  function KeysOf<K, V>(items: seq<(K, V)>): (r: seq<K>)
    ensures |r| == |items| && forall i :: 0 <= i < |items| ==> r[i] == items[i].0
  {
    seq(|items|, i requires 0 <= i < |items| => items[i].0)
  }

  /** `items` lists the dict `m`: every key once, each with its value. */
  ghost predicate ItemsOf<K(!new), V>(items: seq<(K, V)>, m: map<K, V>)
  {
    Distinct(KeysOf(items)) &&
    (forall k :: k in m <==> k in KeysOf(items)) &&
    (forall i :: 0 <= i < |items| ==> items[i].0 in m && items[i].1 == m[items[i].0])
  }

  /** An element of `s` whose key is below every other. */
  lemma Least<K>(s: set<K>, key: K -> string) returns (least: K)
    requires s != {}
    ensures least in s && forall j :: j in s ==> StrLe(key(least), key(j))
  {
    var x :| x in s;
    var rest := s - {x};
    StrLeRefl(key(x));
    if rest == {} {
      forall j | j in s
        ensures j == x
      {
        assert j !in rest;
      }
      least := x;
    } else {
      var m := Least(rest, key);
      StrLeTotal(key(x), key(m));
      if StrLe(key(x), key(m)) {
        forall j | j in rest
          ensures StrLe(key(x), key(j))
        {
          StrLeTransitive(key(x), key(m), key(j));
        }
        least := x;
      } else {
        least := m;
      }
    }
  }

  /** `for k in sorted(d.keys(), key=key): yield k, d[k]`: the items of
      `m` in ascending order of `key`, found by taking the smallest key
      left each round. */
  method SortedItems<K(!new), V>(m: map<K, V>, key: K -> string) returns (items: seq<(K, V)>)
    ensures ItemsOf(items, m) && SortedBy(KeysOf(items), key)
  {
    var rest := m.Keys;
    items := [];
    while rest != {}
      invariant PartListing(items, rest, m, key)
      decreases |rest|
    {
      ghost var least := Least(rest, key);
      var k :| k in rest && forall j :: j in rest ==> StrLe(key(k), key(j));
      ListingStep(items, rest, m, key, k);
      items := items + [(k, m[k])];
      rest := rest - {k};
    }
  }

  /** The loop invariant of `SortedItems`: `items` lists, in ascending
      order, the keys of `m` not in `rest`, each below every key left. */
  ghost predicate PartListing<K(!new), V>(items: seq<(K, V)>, rest: set<K>, m: map<K, V>, key: K -> string)
  {
    rest <= m.Keys &&
    (forall k :: k in m ==> (k in rest <==> k !in KeysOf(items))) &&
    (forall i :: 0 <= i < |items| ==> items[i].0 in m && items[i].1 == m[items[i].0]) &&
    Distinct(KeysOf(items)) && SortedBy(KeysOf(items), key) &&
    (forall i, k :: 0 <= i < |items| && k in rest ==> StrLe(key(items[i].0), key(k)))
  }

  /** Moving the least key left from `rest` to the end of `items` keeps
      the invariant. */
  lemma ListingStep<K(!new), V>(items: seq<(K, V)>, rest: set<K>, m: map<K, V>, key: K -> string, k: K)
    requires PartListing(items, rest, m, key)
    requires k in rest && forall j :: j in rest ==> StrLe(key(k), key(j))
    ensures PartListing(items + [(k, m[k])], rest - {k}, m, key)
  {
    var next := items + [(k, m[k])];
    AppendKey(items, k, m[k]);
    assert k !in KeysOf(items);
    AppendDistinct(KeysOf(items), k);
    AppendLeast(KeysOf(items), k, key, rest);
    assert forall i :: 0 <= i < |items| ==> next[i] == items[i];
  }

  lemma AppendKey<K, V>(items: seq<(K, V)>, k: K, v: V)
    ensures KeysOf(items + [(k, v)]) == KeysOf(items) + [k]
  {
  }

  lemma AppendDistinct<T>(xs: seq<T>, x: T)
    requires Distinct(xs) && x !in xs
    ensures Distinct(xs + [x])
  {
  }

  /** Appending a key no greater than any key left keeps the keys sorted. */
  lemma AppendLeast<K>(keys: seq<K>, k: K, key: K -> string, rest: set<K>)
    requires SortedBy(keys, key) && k in rest
    requires forall i, j :: 0 <= i < |keys| && j in rest ==> StrLe(key(keys[i]), key(j))
    ensures SortedBy(keys + [k], key)
  {
  }

  /** Dropping the first item lists the rest of the dict, still in order. */
  lemma ItemsTail<K(!new), V>(items: seq<(K, V)>, m: map<K, V>, key: K -> string)
    requires ItemsOf(items, m) && items != []
    ensures ItemsOf(items[1..], m - {items[0].0})
    ensures SortedBy(KeysOf(items), key) ==> SortedBy(KeysOf(items[1..]), key)
  {
    assert KeysOf(items[1..]) == KeysOf(items)[1..];
    TailKeys(items, m);
  }

  /** The keys after the first are the dict's other keys. */
  lemma TailKeys<K(!new), V>(items: seq<(K, V)>, m: map<K, V>)
    requires ItemsOf(items, m) && items != []
    ensures forall k :: k in m - {items[0].0} <==> k in KeysOf(items)[1..]
  {
    var keys := KeysOf(items);
    forall k
      ensures k in m - {items[0].0} <==> k in keys[1..]
    {
      if k in keys[1..] {
        var i :| 0 <= i < |keys| - 1 && keys[1..][i] == k;
        assert keys[i + 1] == k && keys[0] == items[0].0;
      }
      if k in m - {items[0].0} {
        var i :| 0 <= i < |keys| && keys[i] == k;
        assert keys[1..][i - 1] == k;
      }
    }
  }


  /** Ascending listings of a dict with string keys are all the same:
      the listing `SortedItems` gives is `sorted(d.keys())`, whichever
      key it happens to find first. */
  lemma {:induction false} SortedItemsUnique<V>(a: seq<(string, V)>, b: seq<(string, V)>, m: map<string, V>)
    requires ItemsOf(a, m) && SortedBy(KeysOf(a), Itself)
    requires ItemsOf(b, m) && SortedBy(KeysOf(b), Itself)
    ensures a == b
    decreases |a|
  {
    ItemsCount(a, m);
    ItemsCount(b, m);
    if a != [] {
      SameFirst(a, b, m);
      ItemsTail(a, m, Itself);
      ItemsTail(b, m, Itself);
      SortedItemsUnique(a[1..], b[1..], m - {a[0].0});
      SameHeadTail(a, b);
    }
  }

  lemma SameHeadTail<T>(a: seq<T>, b: seq<T>)
    requires a != [] && b != [] && a[0] == b[0] && a[1..] == b[1..]
    ensures a == b
  {
    assert a == [a[0]] + a[1..] && b == [b[0]] + b[1..];
  }

  /** Two ascending listings of the same dict start with the same item:
      the least key and its value. */
  lemma SameFirst<V>(a: seq<(string, V)>, b: seq<(string, V)>, m: map<string, V>)
    requires ItemsOf(a, m) && SortedBy(KeysOf(a), Itself)
    requires ItemsOf(b, m) && SortedBy(KeysOf(b), Itself)
    requires a != [] && b != []
    ensures a[0] == b[0]
  {
    var ka, kb := a[0].0, b[0].0;
    assert KeysOf(a)[0] == ka && KeysOf(b)[0] == kb;
    assert kb in KeysOf(a) && ka in KeysOf(b);
    FirstIsLeast(KeysOf(a), kb);
    FirstIsLeast(KeysOf(b), ka);
    StrLeAntisymmetric(ka, kb);
  }

  /** A listing of a dict has one item per key. */
  lemma {:induction false} ItemsCount<K(!new), V>(items: seq<(K, V)>, m: map<K, V>)
    requires ItemsOf(items, m)
    ensures |items| == |m.Keys|
    decreases |items|
  {
    if items == [] {
      assert m.Keys == {} by {
        forall k | k in m.Keys
          ensures k in KeysOf(items)
        {
        }
      }
    } else {
      var k := items[0].0;
      assert KeysOf(items)[0] == k;
      ItemsTail(items, m, (x: K) => "");
      ItemsCount(items[1..], m - {k});
      assert (m - {k}).Keys == m.Keys - {k};
    }
  }

  /** The first of an ascending list of strings is below each of them. */
  lemma FirstIsLeast(keys: seq<string>, k: string)
    requires SortedBy(keys, Itself) && k in keys
    ensures StrLe(keys[0], k)
  {
    var i :| 0 <= i < |keys| && keys[i] == k;
    if i == 0 {
      StrLeRefl(k);
    } else {
      assert StrLe(Itself(keys[0]), Itself(keys[i]));
    }
  }
}

/**
 * Ordered string-keyed records: a JavaScript object or a Python dict, as a
 * sequence of (key, value) pairs in property order. For the non-integer keys
 * used here that order is insertion order, both for `Object.entries` and
 * `Object.keys` (OrdinaryOwnPropertyKeys, section 10.1.11.1 of ECMA-262) and
 * for Python dicts.
 */
module OrderedMap {
  import opened Wrappers

  type Entries<V> = seq<(string, V)>

  /** The keys in property order (`Object.keys`). */
  function Keys<V>(e: Entries<V>): (ks: seq<string>)
    ensures |ks| == |e|
    ensures forall i :: 0 <= i < |e| ==> ks[i] == e[i].0
  {
    if e == [] then [] else [e[0].0] + Keys(e[1..])
  }

  /** No key occurs twice: what every object and dict satisfies. */
  predicate UniqueKeys<V>(e: Entries<V>) {
    forall i, j :: 0 <= i < j < |e| ==> e[i].0 != e[j].0
  }

  /** Property read `o[k]`: the value stored under `k`, or None when `k` is absent. */
  function Get<V>(e: Entries<V>, k: string): (r: Option<V>)
    ensures r.None? <==> k !in Keys(e)
  {
    if e == [] then None
    else if e[0].0 == k then Some(e[0].1)
    else Get(e[1..], k)
  }

  /** With unique keys, a stored pair is what reading its key returns. */
  lemma {:induction false} GetStored<V>(e: Entries<V>, i: nat)
    requires UniqueKeys(e) && i < |e|
    ensures Get(e, e[i].0) == Some(e[i].1)
  {
    if i > 0 {
      UniqueTail(e);
      GetStored(e[1..], i - 1);
    }
  }

  /** Dropping the first pair keeps the keys distinct. */
  lemma UniqueTail<V>(e: Entries<V>)
    requires UniqueKeys(e) && e != []
    ensures UniqueKeys(e[1..])
  {
    forall a, b | 0 <= a < b < |e[1..]| ensures e[1..][a].0 != e[1..][b].0 {
      assert e[1..][a] == e[a + 1] && e[1..][b] == e[b + 1];
    }
  }

  /** The keys of a record that starts with pair `x`. */
  lemma KeysCons<V>(x: (string, V), t: Entries<V>)
    ensures Keys([x] + t) == [x.0] + Keys(t)
  {
    assert ([x] + t)[1..] == t;
  }

  /** Reading a record that starts with pair `x`. */
  lemma ConsFacts<V>(x: (string, V), t: Entries<V>)
    ensures Keys([x] + t) == [x.0] + Keys(t)
    ensures UniqueKeys([x] + t) <==> x.0 !in Keys(t) && UniqueKeys(t)
  {
    KeysCons(x, t);
    assert ([x] + t)[1..] == t;
    if UniqueKeys([x] + t) {
      forall a, b | 0 <= a < b < |t| ensures t[a].0 != t[b].0 {
        assert ([x] + t)[a + 1] == t[a] && ([x] + t)[b + 1] == t[b];
      }
      forall a | 0 <= a < |t| ensures t[a].0 != x.0 {
        assert ([x] + t)[0] == x && ([x] + t)[a + 1] == t[a];
      }
    }
  }

  /**
   * `{ ...o, [k]: v }` in JavaScript and `d[k] = v` in Python: an existing key
   * keeps its position, a new key is appended last. `AssignReads` says what
   * the record then holds and `AssignUnique` that keys stay distinct.
   */
  function Assign<V>(e: Entries<V>, k: string, v: V): (r: Entries<V>)
    ensures Keys(r) == if k in Keys(e) then Keys(e) else Keys(e) + [k]
  {
    if e == [] then
      [(k, v)]
    else
      KeysCons(e[0], e[1..]);
      assert [e[0]] + e[1..] == e;
      if e[0].0 == k then
        KeysCons((k, v), e[1..]);
        [(k, v)] + e[1..]
      else
        var rest := Assign(e[1..], k, v);
        KeysCons(e[0], rest);
        [e[0]] + rest
  }

  /** After the assignment `k` reads `v` and every other key reads as before. */
  lemma {:induction false} AssignReads<V>(e: Entries<V>, k: string, v: V)
    ensures Get(Assign(e, k, v), k) == Some(v)
    ensures forall k' :: k' != k ==> Get(Assign(e, k, v), k') == Get(e, k')
  {
    if e != [] && e[0].0 != k {
      AssignReads(e[1..], k, v);
      assert Assign(e, k, v)[1..] == Assign(e[1..], k, v);
    } else if e != [] {
      assert Assign(e, k, v)[1..] == e[1..];
    }
  }

  /** Assigning keeps the keys of a record distinct. */
  lemma {:induction false} AssignUnique<V>(e: Entries<V>, k: string, v: V)
    ensures UniqueKeys(e) ==> UniqueKeys(Assign(e, k, v))
  {
    if e == [] {
      ConsFacts((k, v), []);
    } else if UniqueKeys(e) {
      ConsFacts(e[0], e[1..]);
      assert [e[0]] + e[1..] == e;
      if e[0].0 == k {
        ConsFacts((k, v), e[1..]);
      } else {
        AssignUnique(e[1..], k, v);
        ConsFacts(e[0], Assign(e[1..], k, v));
      }
    }
  }

  /**
   * Assigning an existing key of a record with unique keys rewrites exactly
   * that one pair, in place.
   */
  lemma AssignExisting<V>(e: Entries<V>, i: nat, v: V)
    requires UniqueKeys(e) && i < |e|
    ensures Assign(e, e[i].0, v) == e[i := (e[i].0, v)]
  {
    AssignFirst(e, i, v);
  }

  /** Assigning the key of pair `i`, when no earlier pair has that key, rewrites pair `i`. */
  lemma {:induction false} AssignFirst<V>(e: Entries<V>, i: nat, v: V)
    requires i < |e| && forall j :: 0 <= j < i ==> e[j].0 != e[i].0
    ensures Assign(e, e[i].0, v) == e[i := (e[i].0, v)]
  {
    var k := e[i].0;
    var tail := e[1..];
    assert e == [e[0]] + tail;
    if i == 0 {
      assert Assign(e, k, v) == [(k, v)] + tail;
      UpdateCons(e[0], tail, (k, v));
    } else {
      assert e[0].0 != k;
      assert tail[i - 1] == e[i];
      AssignFirst(tail, i - 1, v);
      assert Assign(e, k, v) == [e[0]] + tail[i - 1 := (k, v)];
      ConsUpdate(e[0], tail, i - 1, (k, v));
    }
  }

  /** Updating the head of a sequence that starts with `x`. */
  lemma UpdateCons<T>(x: T, t: seq<T>, y: T)
    ensures ([x] + t)[0 := y] == [y] + t
  {
  }

  /** Updating past the head commutes with putting `x` in front. */
  lemma ConsUpdate<T>(x: T, t: seq<T>, i: nat, y: T)
    requires i < |t|
    ensures [x] + t[i := y] == ([x] + t)[i + 1 := y]
  {
  }
}

/** Python's `dict` with string keys. A dict remembers the order in which its
    keys were first inserted; assigning to an existing key changes the value
    but not the key's position. It is modelled as a list of bindings whose
    keys are distinct (`DistinctKeys`), which every operation here preserves. */
module Dicts {
  import opened Wrappers

  type Dict<V> = seq<(string, V)>

  /** `list(d.keys())`, in insertion order. */
  function Keys<V>(d: Dict<V>): (r: seq<string>)
    ensures |r| == |d|
    ensures forall i :: 0 <= i < |d| ==> r[i] == d[i].0
  {
    if |d| == 0 then [] else [d[0].0] + Keys(d[1..])
  }

  predicate DistinctKeys<V>(d: Dict<V>) {
    forall i, j :: 0 <= i < j < |d| ==> d[i].0 != d[j].0
  }

  /** `d.get(k)`: the value bound to `k`, if any. */
  function Get<V>(d: Dict<V>, k: string): (r: Option<V>)
    ensures r.Some? <==> k in Keys(d)
    ensures r.Some? ==> exists i :: 0 <= i < |d| && d[i].0 == k && d[i].1 == r.value
  {
    if |d| == 0 then None
    else if d[0].0 == k then Some(d[0].1)
    else
      var r := Get(d[1..], k);
      assert r.Some? ==> exists i :: 1 <= i < |d| && d[i].0 == k && d[i].1 == r.value by {
        if r.Some? {
          var i :| 0 <= i < |d[1..]| && d[1..][i].0 == k && d[1..][i].1 == r.value;
          assert d[i + 1] == d[1..][i];
        }
      }
      r
  }

  /** `d[k] = v`: an existing key keeps its position and takes the new value;
      a new key is appended at the end. */
  function Set<V>(d: Dict<V>, k: string, v: V): (r: Dict<V>)
    ensures Keys(r) == if k in Keys(d) then Keys(d) else Keys(d) + [k]
    ensures k !in Keys(d) ==> r == d + [(k, v)]
    ensures DistinctKeys(d) ==> DistinctKeys(r)
  {
    if |d| == 0 then [(k, v)]
    else if d[0].0 == k then [(k, v)] + d[1..]
    else
      var rest := Set(d[1..], k, v);
      SetBehind(d, k, v, rest);
      [d[0]] + rest
  }

  /** The step of `Set` past a first binding of another key, for each of
      its three postconditions. */
  lemma SetBehind<V>(d: Dict<V>, k: string, v: V, rest: Dict<V>)
    requires |d| > 0 && d[0].0 != k
    requires Keys(rest) == if k in Keys(d[1..]) then Keys(d[1..]) else Keys(d[1..]) + [k]
    requires k !in Keys(d[1..]) ==> rest == d[1..] + [(k, v)]
    requires DistinctKeys(d[1..]) ==> DistinctKeys(rest)
    ensures Keys([d[0]] + rest) == if k in Keys(d) then Keys(d) else Keys(d) + [k]
    ensures k !in Keys(d) ==> [d[0]] + rest == d + [(k, v)]
    ensures DistinctKeys(d) ==> DistinctKeys([d[0]] + rest)
  {
    KeysCons(d[0], d[1..]);
    ConsTail(d);
    SetBehindKeys(d[0], d[1..], k, rest);
    if k !in Keys(d) {
      ConsSnoc(d[0], d[1..], (k, v));
    }
    if DistinctKeys(d) {
      DistinctTail(d);
      DistinctCons(d[0], rest);
    }
  }

  lemma SetBehindKeys<V>(b: (string, V), tail: Dict<V>, k: string, rest: Dict<V>)
    requires b.0 != k
    requires Keys(rest) == if k in Keys(tail) then Keys(tail) else Keys(tail) + [k]
    ensures Keys([b] + rest) == if k in [b.0] + Keys(tail) then [b.0] + Keys(tail) else ([b.0] + Keys(tail)) + [k]
  {
    KeysCons(b, rest);
    if k !in Keys(tail) {
      ConsSnoc(b.0, Keys(tail), k);
    }
  }

  lemma ConsTail<T>(xs: seq<T>)
    requires |xs| > 0
    ensures [xs[0]] + xs[1..] == xs
  {
  }

  lemma ConsSnoc<T>(x: T, xs: seq<T>, y: T)
    ensures [x] + (xs + [y]) == ([x] + xs) + [y]
  {
  }

  lemma DistinctTail<V>(d: Dict<V>)
    requires |d| > 0 && DistinctKeys(d)
    ensures DistinctKeys(d[1..]) && d[0].0 !in Keys(d[1..])
  {
    assert forall i :: 0 <= i < |d[1..]| ==> d[1..][i] == d[i + 1];
  }

  lemma KeysCons<V>(b: (string, V), d: Dict<V>)
    ensures Keys([b] + d) == [b.0] + Keys(d)
  {
    assert ([b] + d)[1..] == d;
  }

  /** After `d[k] = v`, `k` is bound to `v` and every other key keeps its value. */
  lemma {:induction false} SetGet<V>(d: Dict<V>, k: string, v: V, k': string)
    ensures Get(Set(d, k, v), k') == if k' == k then Some(v) else Get(d, k')
    decreases |d|
  {
    if |d| > 0 && d[0].0 != k {
      SetGet(d[1..], k, v, k');
    }
  }

  lemma DistinctCons<V>(b: (string, V), d: Dict<V>)
    requires DistinctKeys(d) && b.0 !in Keys(d)
    ensures DistinctKeys([b] + d)
  {
    forall i, j | 0 <= i < j < |[b] + d|
      ensures ([b] + d)[i].0 != ([b] + d)[j].0
    {
      if i == 0 {
        assert ([b] + d)[j].0 == Keys(d)[j - 1];
      }
    }
  }

  /** The value of the last binding of `k` in a list of pairs. */
  function LastBinding<V>(pairs: seq<(string, V)>, k: string): Option<V> {
    if |pairs| == 0 then None
    else if pairs[|pairs| - 1].0 == k then Some(pairs[|pairs| - 1].1)
    else LastBinding(pairs[..|pairs| - 1], k)
  }

  /** `for k, v in pairs: d[k] = v` */
  function Assign<V>(d: Dict<V>, pairs: seq<(string, V)>): (r: Dict<V>)
    ensures DistinctKeys(d) ==> DistinctKeys(r)
    decreases |pairs|
  {
    if |pairs| == 0 then d
    else
      var last := pairs[|pairs| - 1];
      Set(Assign(d, pairs[..|pairs| - 1]), last.0, last.1)
  }

  /** `dict(pairs)`: the dict built by assigning the pairs in order. This is
      also how `json.loads` turns the members of an object into a dict. */
  function FromPairs<V>(pairs: seq<(string, V)>): (r: Dict<V>)
    ensures DistinctKeys(r)
  {
    Assign([], pairs)
  }

  /** After assigning a list of pairs, a key holds the value of its last
      binding in the list, or its earlier value when the list does not bind
      it: later duplicates overwrite earlier ones. */
  lemma {:induction false} AssignGet<V>(d: Dict<V>, pairs: seq<(string, V)>, k: string)
    ensures Get(Assign(d, pairs), k)
         == if LastBinding(pairs, k).Some? then LastBinding(pairs, k) else Get(d, k)
    decreases |pairs|
  {
    if |pairs| > 0 {
      var init, last := pairs[..|pairs| - 1], pairs[|pairs| - 1];
      AssignGet(d, init, k);
      SetGet(Assign(d, init), last.0, last.1, k);
    }
  }

  /** A list of bindings with distinct keys already is the dict it denotes. */
  lemma {:induction false} FromDistinctPairs<V>(pairs: seq<(string, V)>)
    requires DistinctKeys(pairs)
    ensures FromPairs(pairs) == pairs
    decreases |pairs|
  {
    if |pairs| > 0 {
      var init, last := pairs[..|pairs| - 1], pairs[|pairs| - 1];
      assert DistinctKeys(init);
      FromDistinctPairs(init);
      assert last.0 !in Keys(init);
      assert init + [last] == pairs;
    }
  }

  /** In a dict a key is listed at most once by `keys()`. */
  lemma {:induction false} KeyListedOnce<V>(d: Dict<V>, k: string)
    requires DistinctKeys(d) && k in Keys(d)
    ensures multiset(Keys(d))[k] == 1
    decreases |d|
  {
    assert Keys(d) == [d[0].0] + Keys(d[1..]);
    assert DistinctKeys(d[1..]);
    if d[0].0 == k {
      assert k !in Keys(d[1..]);
    } else {
      KeyListedOnce(d[1..], k);
    }
  }

  /** A key with a last binding is bound somewhere in the list. */
  lemma {:induction false} LastBindingFound<V>(pairs: seq<(string, V)>, k: string)
    requires LastBinding(pairs, k).Some?
    ensures exists i :: 0 <= i < |pairs| && pairs[i] == (k, LastBinding(pairs, k).value)
    decreases |pairs|
  {
    var n := |pairs| - 1;
    if pairs[n].0 != k {
      LastBindingFound(pairs[..n], k);
      var i :| 0 <= i < n && pairs[..n][i] == (k, LastBinding(pairs, k).value);
      assert pairs[i] == pairs[..n][i];
    }
  }

  /** Assigning never moves a key already present: the old keys stay a
      prefix of the new ones. */
  lemma {:induction false} AssignKeepsOrder<V>(d: Dict<V>, pairs: seq<(string, V)>)
    ensures |Keys(d)| <= |Keys(Assign(d, pairs))|
    ensures Keys(Assign(d, pairs))[..|Keys(d)|] == Keys(d)
    decreases |pairs|
  {
    if |pairs| > 0 {
      var init, last := pairs[..|pairs| - 1], pairs[|pairs| - 1];
      AssignKeepsOrder(d, init);
    }
  }

  /** Assigning a list of pairs is assigning its first pair, then the rest. */
  lemma {:induction false} AssignCons<V>(d: Dict<V>, p: (string, V), rest: seq<(string, V)>)
    ensures Assign(d, [p] + rest) == Assign(Set(d, p.0, p.1), rest)
    decreases |rest|
  {
    var all := [p] + rest;
    if |rest| == 0 {
      assert all[..|all| - 1] == [];
    } else {
      var n := |rest| - 1;
      assert all[..|all| - 1] == [p] + rest[..n];
      assert all[|all| - 1] == rest[n];
      AssignCons(d, p, rest[..n]);
    }
  }
}

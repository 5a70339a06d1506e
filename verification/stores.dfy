/** The HashMap-backed store every repository wraps: entries keyed by an identifier,
    filtered views of the entries, and sums taken in the map's iteration order. */
module Stores {

  type Key = string

  /** `order` lists each key of `m` exactly once: the iteration order of the HashMap,
      which the model leaves open. */
  ghost predicate Enumerates<V>(order: seq<Key>, m: map<Key, V>) {
    Distinct(order) && (forall k :: k in m <==> k in order)
  }

  predicate Distinct(keys: seq<Key>) {
    forall i, j :: 0 <= i < j < |keys| ==> keys[i] != keys[j]
  }

  predicate AllIn<V>(keys: seq<Key>, m: map<Key, V>) {
    forall i :: 0 <= i < |keys| ==> keys[i] in m
  }

  /** The filter that keeps everything: a plain stream without filter(). */
  predicate Always<V>(v: V) {
    true
  }

  /** Map.put: adds or replaces the entry for k and leaves every other entry alone. */
  function Put<V>(m: map<Key, V>, k: Key, v: V): (r: map<Key, V>)
    ensures r.Keys == m.Keys + {k} && r[k] == v
    ensures forall j :: j in m && j != k ==> r[j] == m[j]
  {
    m[k := v]
  }

  /** A repository's update: replaces an entry that is already there, and otherwise does nothing. */
  function Replace<V>(m: map<Key, V>, k: Key, v: V): (r: map<Key, V>)
    ensures r.Keys == m.Keys
    ensures k in m ==> r[k] == v
    ensures k !in m ==> r == m
    ensures forall j :: j in m && j != k ==> r[j] == m[j]
  {
    if k in m then m[k := v] else m
  }

  /** Map.remove */
  function Remove<V>(m: map<Key, V>, k: Key): (r: map<Key, V>)
    ensures r.Keys == m.Keys - {k}
    ensures forall j :: j in r ==> r[j] == m[j]
  {
    m - {k}
  }

  /** The entries a stream filter keeps, keyed as in the store. */
  function Where<V>(m: map<Key, V>, p: V -> bool): (r: map<Key, V>)
    ensures r.Keys <= m.Keys
    ensures forall k :: k in m ==> (k in r <==> p(m[k]))
    ensures forall k :: k in r ==> r[k] == m[k]
  {
    map k | k in m && p(m[k]) :: m[k]
  }

  /** Filtering twice keeps what both filters accept. */
  lemma WhereWhere<V>(m: map<Key, V>, p: V -> bool, q: V -> bool)
    ensures Where(Where(m, p), q) == Where(m, x => p(x) && q(x))
  {
  }

  /** filter(p).mapToDouble(f).sum() visiting the keys in the given order. */
  function SumWhere<V>(m: map<Key, V>, keys: seq<Key>, p: V -> bool, f: V -> real): real
    requires AllIn(keys, m)
    decreases |keys|
  {
    if keys == [] then 0.0
    else (if p(m[keys[0]]) then f(m[keys[0]]) else 0.0) + SumWhere(m, keys[1..], p, f)
  }

  /** filter(p).count() visiting the keys in the given order. */
  function CountWhere<V>(m: map<Key, V>, keys: seq<Key>, p: V -> bool): (n: nat)
    requires AllIn(keys, m)
    ensures n <= |keys|
    decreases |keys|
  {
    if keys == [] then 0
    else (if p(m[keys[0]]) then 1 else 0) + CountWhere(m, keys[1..], p)
  }

  lemma {:induction false} SumWhereAppend<V>(m: map<Key, V>, a: seq<Key>, b: seq<Key>, p: V -> bool, f: V -> real)
    requires AllIn(a, m) && AllIn(b, m)
    ensures AllIn(a + b, m)
    ensures SumWhere(m, a + b, p, f) == SumWhere(m, a, p, f) + SumWhere(m, b, p, f)
    decreases |a|
  {
    if a != [] {
      assert (a + b)[1..] == a[1..] + b;
      SumWhereAppend(m, a[1..], b, p, f);
    } else {
      assert a + b == b;
    }
  }

  /** Taking out the key at position j keeps the other keys, each once. */
  lemma {:induction false} DropAt(b: seq<Key>, j: int)
    requires Distinct(b) && 0 <= j < |b|
    ensures Distinct(b[..j] + b[j + 1..])
    ensures forall x :: x in b[..j] + b[j + 1..] <==> x in b && x != b[j]
  {
    var rest := b[..j] + b[j + 1..];
    forall s, t | 0 <= s < t < |rest|
      ensures rest[s] != rest[t]
    {
      var bs := if s < j then s else s + 1;
      var bt := if t < j then t else t + 1;
      assert rest[s] == b[bs] && rest[t] == b[bt] && bs < bt;
    }
    forall x
      ensures x in rest <==> x in b && x != b[j]
    {
      if x in rest {
        var t :| 0 <= t < |rest| && rest[t] == x;
        var bt := if t < j then t else t + 1;
        assert b[bt] == x && bt != j;
      }
      if x in b && x != b[j] {
        var t :| 0 <= t < |b| && b[t] == x;
        if t < j {
          assert rest[t] == x;
        } else {
          assert rest[t - 1] == x;
        }
      }
    }
  }

  /** The sum over b splits into the term for b[j] and the sum over the other keys. */
  lemma SumWhereDropAt<V>(m: map<Key, V>, b: seq<Key>, j: int, p: V -> bool, f: V -> real)
    requires AllIn(b, m) && 0 <= j < |b|
    ensures AllIn(b[..j] + b[j + 1..], m)
    ensures SumWhere(m, b, p, f)
            == SumWhere(m, [b[j]], p, f) + SumWhere(m, b[..j] + b[j + 1..], p, f)
  {
    assert b == b[..j] + ([b[j]] + b[j + 1..]);
    SumWhereAppend(m, [b[j]], b[j + 1..], p, f);
    SumWhereAppend(m, b[..j], [b[j]] + b[j + 1..], p, f);
    SumWhereAppend(m, b[..j], b[j + 1..], p, f);
  }

  lemma HeadIsMember(b: seq<Key>)
    ensures b != [] ==> b[0] in b
  {
  }

  /** The sum does not depend on the order in which the keys are visited. */
  lemma {:induction false} SumWherePermutation<V>(m: map<Key, V>, a: seq<Key>, b: seq<Key>, p: V -> bool, f: V -> real)
    requires AllIn(a, m) && AllIn(b, m) && Distinct(a) && Distinct(b)
    requires forall k :: k in a <==> k in b
    ensures SumWhere(m, a, p, f) == SumWhere(m, b, p, f)
    decreases |a|
  {
    if a != [] {
      assert a[0] in b;
      var j :| 0 <= j < |b| && b[j] == a[0];
      DropAt(a, 0);
      DropAt(b, j);
      assert a[..0] + a[0 + 1..] == a[1..];
      SumWhereDropAt(m, b, j, p, f);
      var rest := b[..j] + b[j + 1..];
      forall x
        ensures x in a[1..] <==> x in rest
      {
        assert x in a[..0] + a[0 + 1..] <==> x in a && x != a[0];
        assert x in rest <==> x in b && x != b[j];
      }
      SumWherePermutation(m, a[1..], b[..j] + b[j + 1..], p, f);
    } else {
      HeadIsMember(b);
    }
  }

  /** Any two iteration orders of the same map give the same sum. */
  lemma SumWhereIndependentOfOrder<V>(m: map<Key, V>, o1: seq<Key>, o2: seq<Key>, p: V -> bool, f: V -> real)
    requires Enumerates(o1, m) && Enumerates(o2, m)
    ensures AllIn(o1, m) && AllIn(o2, m)
    ensures SumWhere(m, o1, p, f) == SumWhere(m, o2, p, f)
  {
    SumWherePermutation(m, o1, o2, p, f);
  }

  /** A sum of non-negative terms is non-negative. */
  lemma {:induction false} SumWhereNonNegative<V>(m: map<Key, V>, keys: seq<Key>, p: V -> bool, f: V -> real)
    requires AllIn(keys, m)
    requires forall k :: k in m && p(m[k]) ==> f(m[k]) >= 0.0
    ensures SumWhere(m, keys, p, f) >= 0.0
    decreases |keys|
  {
    if keys != [] {
      SumWhereNonNegative(m, keys[1..], p, f);
    }
  }

  /** Counting in order counts the distinct keys the filter keeps. */
  lemma {:induction false} CountWhereCountsKeys<V>(m: map<Key, V>, keys: seq<Key>, p: V -> bool)
    requires AllIn(keys, m) && Distinct(keys)
    ensures CountWhere(m, keys, p) == |set k | k in keys && p(m[k])|
    decreases |keys|
  {
    var s := set k | k in keys && p(m[k]);
    if keys == [] {
      assert s == {};
    } else {
      var tail := set k | k in keys[1..] && p(m[k]);
      CountWhereCountsKeys(m, keys[1..], p);
      assert keys[0] !in keys[1..] by {
        forall i | 0 <= i < |keys[1..]|
          ensures keys[1..][i] != keys[0]
        {
          assert keys[1..][i] == keys[i + 1];
        }
      }
      if p(m[keys[0]]) {
        assert s == tail + {keys[0]};
      } else {
        assert s == tail;
      }
    }
  }

  /** A filter's count over the full iteration order is the size of the filtered view. */
  lemma CountWhereIsSizeOfWhere<V>(m: map<Key, V>, order: seq<Key>, p: V -> bool)
    requires Enumerates(order, m)
    ensures AllIn(order, m)
    ensures CountWhere(m, order, p) == |Where(m, p)|
  {
    CountWhereCountsKeys(m, order, p);
    assert (set k | k in order && p(m[k])) == Where(m, p).Keys;
  }

  /** One filtered term of a sum. */
  function Term<V>(v: V, p: V -> bool, f: V -> real): real {
    if p(v) then f(v) else 0.0
  }

  /** Replacing the value under one visited key changes the sum by exactly that key's term. */
  lemma {:induction false} SumWhereAfterPut<V>(m: map<Key, V>, keys: seq<Key>, k: Key, v: V, p: V -> bool, f: V -> real)
    requires AllIn(keys, m) && Distinct(keys) && k in keys
    ensures AllIn(keys, m[k := v])
    ensures SumWhere(m[k := v], keys, p, f) == SumWhere(m, keys, p, f) - Term(m[k], p, f) + Term(v, p, f)
    decreases |keys|
  {
    var m' := m[k := v];
    assert AllIn(keys, m');
    if keys[0] == k {
      assert k !in keys[1..] by {
        forall i | 0 <= i < |keys[1..]|
          ensures keys[1..][i] != k
        {
          assert keys[1..][i] == keys[i + 1];
        }
      }
      SumWhereUnchanged(m, m', keys[1..], p, f);
    } else {
      assert k in keys[1..] by {
        var i :| 0 <= i < |keys| && keys[i] == k;
        assert keys[1..][i - 1] == k;
      }
      SumWhereAfterPut(m, keys[1..], k, v, p, f);
    }
  }

  /** Two stores that agree on every visited key give the same sum. */
  lemma {:induction false} SumWhereUnchanged<V>(m: map<Key, V>, m': map<Key, V>, keys: seq<Key>, p: V -> bool, f: V -> real)
    requires AllIn(keys, m) && AllIn(keys, m')
    requires forall i :: 0 <= i < |keys| ==> m[keys[i]] == m'[keys[i]]
    ensures SumWhere(m, keys, p, f) == SumWhere(m', keys, p, f)
    decreases |keys|
  {
    if keys != [] {
      SumWhereUnchanged(m, m', keys[1..], p, f);
    }
  }

  /** A new key visited last adds its term to the sum. */
  lemma SumWhereAfterInsert<V>(m: map<Key, V>, keys: seq<Key>, k: Key, v: V, p: V -> bool, f: V -> real)
    requires AllIn(keys, m) && k !in m
    ensures AllIn(keys + [k], m[k := v])
    ensures SumWhere(m[k := v], keys + [k], p, f) == SumWhere(m, keys, p, f) + Term(v, p, f)
  {
    var m' := m[k := v];
    assert AllIn(keys, m');
    SumWhereAppend(m', keys, [k], p, f);
    SumWhereUnchanged(m, m', keys, p, f);
  }

  /** Storing v under k changes a filtered total by v's term less the term of the value it replaces. */
  lemma SumWherePut<V>(m: map<Key, V>, order: seq<Key>, order': seq<Key>, k: Key, v: V, p: V -> bool, f: V -> real)
    requires Enumerates(order, m) && Enumerates(order', m[k := v])
    ensures AllIn(order, m) && AllIn(order', m[k := v])
    ensures SumWhere(m[k := v], order', p, f)
            == SumWhere(m, order, p, f) - (if k in m then Term(m[k], p, f) else 0.0) + Term(v, p, f)
  {
    var m' := m[k := v];
    if k in m {
      SumWhereAfterPut(m, order, k, v, p, f);
      SumWherePermutation(m', order, order', p, f);
    } else {
      SumWhereAfterInsert(m, order, k, v, p, f);
      var o2 := order + [k];
      assert Distinct(o2) by {
        forall i, j | 0 <= i < j < |o2|
          ensures o2[i] != o2[j]
        {
          if j == |order| {
            assert o2[i] == order[i] && order[i] in m;
          }
        }
      }
      assert forall x :: x in o2 <==> x in order || x == k;
      SumWherePermutation(m', o2, order', p, f);
    }
  }

  lemma {:induction false} CountWhereAlways<V>(m: map<Key, V>, keys: seq<Key>)
    requires AllIn(keys, m)
    ensures CountWhere(m, keys, Always) == |keys|
    decreases |keys|
  {
    if keys != [] {
      CountWhereAlways(m, keys[1..]);
    }
  }

  /** An iteration order is as long as the map is large. */
  lemma EnumerationSize<V>(m: map<Key, V>, order: seq<Key>)
    requires Enumerates(order, m)
    ensures AllIn(order, m) && |order| == |m|
  {
    CountWhereIsSizeOfWhere(m, order, Always);
    CountWhereAlways(m, order);
    assert Where(m, Always) == m;
  }

  /** Streams' average().orElse(0.0). */
  function Average<V>(m: map<Key, V>, order: seq<Key>, f: V -> real): (r: real)
    requires AllIn(order, m)
    ensures order == [] ==> r == 0.0
    ensures order != [] ==> r * (|order| as real) == SumWhere(m, order, Always, f)
  {
    if order == [] then 0.0 else SumWhere(m, order, Always, f) / (|order| as real)
  }
}

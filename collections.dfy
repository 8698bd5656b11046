/**
  Facts about the list and dictionary shapes the batch engine builds: a
  dictionary kept as a map plus its insertion-ordered key list, sums over
  such a dictionary, and the concatenation of its list values.
 */
module Collections {

  predicate Distinct<T(==)>(s: seq<T>) {
    forall i, j :: 0 <= i < j < |s| ==> s[i] != s[j]
  }

  /** The concatenation of a list of lists, in order. */
  function Flatten<T>(gs: seq<seq<T>>): (r: seq<T>)
    decreases |gs|
  {
    if |gs| == 0 then [] else Flatten(gs[..|gs| - 1]) + gs[|gs| - 1]
  }

  lemma FlattenSnoc<T>(gs: seq<seq<T>>, g: seq<T>)
    ensures Flatten(gs + [g]) == Flatten(gs) + g
  {
    assert (gs + [g])[..|gs|] == gs;
  }

  /** The concatenation of the first `i + 1` groups. */
  lemma FlattenPrefixStep<T>(gs: seq<seq<T>>, i: nat)
    requires i < |gs|
    ensures Flatten(gs[..i + 1]) == Flatten(gs[..i]) + gs[i]
  {
    assert gs[..i + 1][..i] == gs[..i];
  }

  lemma {:induction false} FlattenAppend<T>(a: seq<seq<T>>, b: seq<seq<T>>)
    ensures Flatten(a + b) == Flatten(a) + Flatten(b)
    decreases |b|
  {
    if |b| == 0 {
      assert a + b == a;
    } else {
      var b0, x := b[..|b| - 1], b[|b| - 1];
      assert b == b0 + [x];
      assert a + b == (a + b0) + [x];
      FlattenAppend(a, b0);
      FlattenSnoc(a + b0, x);
      FlattenSnoc(b0, x);
      assert Flatten(a) + Flatten(b0) + x == Flatten(a) + (Flatten(b0) + x);
    }
  }

  /** The values of a dictionary, read in the order of the given keys. */
  function Lookup<K, V>(keys: seq<K>, m: map<K, V>): (r: seq<V>)
    requires forall i :: 0 <= i < |keys| ==> keys[i] in m
    ensures |r| == |keys|
    ensures forall i :: 0 <= i < |keys| ==> r[i] == m[keys[i]]
  {
    seq(|keys|, i requires 0 <= i < |keys| => m[keys[i]])
  }

  /** The sum of a dictionary's counts over the given keys. */
  function SumOf<K>(keys: seq<K>, m: map<K, nat>): nat
    requires forall i :: 0 <= i < |keys| ==> keys[i] in m
    decreases |keys|
  {
    if |keys| == 0 then 0 else SumOf(keys[..|keys| - 1], m) + m[keys[|keys| - 1]]
  }

  /** A key outside the list does not affect the sum. */
  lemma {:induction false} SumOfOtherKey<K>(keys: seq<K>, m: map<K, nat>, k: K, v: nat)
    requires forall i :: 0 <= i < |keys| ==> keys[i] in m
    requires forall i :: 0 <= i < |keys| ==> keys[i] != k
    ensures SumOf(keys, m[k := v]) == SumOf(keys, m)
    decreases |keys|
  {
    if |keys| > 0 {
      SumOfOtherKey(keys[..|keys| - 1], m, k, v);
    }
  }

  /** Changing the count of a key listed once changes the sum by as much. */
  lemma {:induction false} SumOfUpdate<K>(keys: seq<K>, m: map<K, nat>, k: K, v: nat)
    requires forall i :: 0 <= i < |keys| ==> keys[i] in m
    requires Distinct(keys) && k in keys
    ensures SumOf(keys, m[k := v]) + m[k] == SumOf(keys, m) + v
    decreases |keys|
  {
    var n := |keys|;
    var init := keys[..n - 1];
    if keys[n - 1] == k {
      SumOfOtherKey(init, m, k, v);
    } else {
      assert k in init by {
        var j :| 0 <= j < n && keys[j] == k;
        assert init[j] == k;
      }
      SumOfUpdate(init, m, k, v);
    }
  }

  /** A key outside the list does not affect the concatenated values. */
  lemma LookupOtherKey<K, V>(keys: seq<K>, m: map<K, V>, k: K, v: V)
    requires forall i :: 0 <= i < |keys| ==> keys[i] in m
    requires forall i :: 0 <= i < |keys| ==> keys[i] != k
    ensures Lookup(keys, m[k := v]) == Lookup(keys, m)
  {
  }

  /** Appending `x` to the list of a key listed once adds `x` once to the
      concatenated values. */
  lemma {:induction false} FlattenLookupAppend<K, T>(keys: seq<K>, m: map<K, seq<T>>, k: K, x: T)
    requires forall i :: 0 <= i < |keys| ==> keys[i] in m
    requires Distinct(keys) && k in keys
    ensures multiset(Flatten(Lookup(keys, m[k := m[k] + [x]])))
         == multiset(Flatten(Lookup(keys, m))) + multiset{x}
    decreases |keys|
  {
    var n := |keys|;
    var init := keys[..n - 1];
    var m' := m[k := m[k] + [x]];
    assert Lookup(keys, m')[..n - 1] == Lookup(init, m');
    assert Lookup(keys, m)[..n - 1] == Lookup(init, m);
    if keys[n - 1] == k {
      LookupOtherKey(init, m, k, m[k] + [x]);
    } else {
      assert k in init by {
        var j :| 0 <= j < n && keys[j] == k;
        assert init[j] == k;
      }
      FlattenLookupAppend(init, m, k, x);
    }
  }

  lemma LookupAppend<K, V>(a: seq<K>, b: seq<K>, m: map<K, V>)
    requires forall i :: 0 <= i < |a| ==> a[i] in m
    requires forall i :: 0 <= i < |b| ==> b[i] in m
    ensures Lookup(a + b, m) == Lookup(a, m) + Lookup(b, m)
  {
  }

  /** Reading the values through `a + b` concatenates the two readings. */
  lemma GatherAppend<K, T>(a: seq<K>, b: seq<K>, m: map<K, seq<T>>)
    requires forall i :: 0 <= i < |a| ==> a[i] in m
    requires forall i :: 0 <= i < |b| ==> b[i] in m
    ensures Flatten(Lookup(a + b, m)) == Flatten(Lookup(a, m)) + Flatten(Lookup(b, m))
  {
    LookupAppend(a, b, m);
    FlattenAppend(Lookup(a, m), Lookup(b, m));
  }

  lemma GatherSingle<K, T>(x: K, m: map<K, seq<T>>)
    requires x in m
    ensures Flatten(Lookup([x], m)) == m[x]
  {
    assert Lookup([x], m) == [m[x]];
    assert [m[x]][..0] == [];
  }

  /** Taking out the key at `j` takes out its values. */
  lemma GatherRemove<K, T>(ks: seq<K>, j: nat, m: map<K, seq<T>>)
    requires forall i :: 0 <= i < |ks| ==> ks[i] in m
    requires j < |ks|
    ensures multiset(Flatten(Lookup(ks, m)))
         == multiset(m[ks[j]]) + multiset(Flatten(Lookup(ks[..j] + ks[j + 1..], m)))
  {
    var p, x, q := ks[..j], ks[j], ks[j + 1..];
    assert ks == p + [x] + q;
    GatherAppend(p + [x], q, m);
    GatherAppend(p, [x], m);
    GatherSingle(x, m);
    GatherAppend(p, q, m);
  }

  lemma KeysOfPermutation<K, V>(ks1: seq<K>, ks2: seq<K>, m: map<K, V>)
    requires forall i :: 0 <= i < |ks1| ==> ks1[i] in m
    requires multiset(ks1) == multiset(ks2)
    ensures forall i :: 0 <= i < |ks2| ==> ks2[i] in m
  {
    forall i | 0 <= i < |ks2| ensures ks2[i] in m {
      assert ks2[i] in multiset(ks2);
      assert ks2[i] in ks1;
    }
  }

  /** The concatenated values depend, as a multiset, only on the multiset
      of keys they are read through. */
  lemma {:induction false} FlattenLookupPermutation<K, T>(ks1: seq<K>, ks2: seq<K>, m: map<K, seq<T>>)
    requires forall i :: 0 <= i < |ks1| ==> ks1[i] in m
    requires multiset(ks1) == multiset(ks2)
    ensures forall i :: 0 <= i < |ks2| ==> ks2[i] in m
    ensures multiset(Flatten(Lookup(ks1, m))) == multiset(Flatten(Lookup(ks2, m)))
    decreases |ks1|
  {
    KeysOfPermutation(ks1, ks2, m);
    if |ks1| > 0 {
      var n := |ks1|;
      var x := ks1[n - 1];
      assert x in multiset(ks2);
      var j :| 0 <= j < |ks2| && ks2[j] == x;
      var init1, rest2 := ks1[..n - 1] + ks1[n..], ks2[..j] + ks2[j + 1..];
      RemovedMultiset(ks1, n - 1);
      RemovedMultiset(ks2, j);
      FlattenLookupPermutation(init1, rest2, m);
      GatherRemove(ks2, j, m);
      GatherRemove(ks1, n - 1, m);
    }
  }

  lemma RemovedMultiset<K>(ks: seq<K>, j: nat)
    requires j < |ks|
    ensures multiset(ks[..j] + ks[j + 1..]) == multiset(ks) - multiset{ks[j]}
  {
    assert ks == ks[..j] + [ks[j]] + ks[j + 1..];
  }

  /** `d.get(k, default)`. */
  function Get<K, V>(m: map<K, V>, k: K, default: V): V {
    if k in m then m[k] else default
  }

  /** A dictionary's keys in insertion order: each key of the map listed
      once, and nothing else. */
  ghost predicate KeyedBy<K(!new), V>(keys: seq<K>, m: map<K, V>) {
    Distinct(keys) && forall k :: k in m <==> k in keys
  }

  /** The insertion-ordered keys after `d[k] = v`: a new key goes last. */
  function Inserted<K, V>(keys: seq<K>, m: map<K, V>, k: K): seq<K> {
    if k in m then keys else keys + [k]
  }

  lemma KeyedInsert<K(!new), V>(keys: seq<K>, m: map<K, V>, k: K, v: V)
    requires KeyedBy(keys, m)
    ensures KeyedBy(Inserted(keys, m, k), m[k := v])
  {
    if k !in m {
      var ks := keys + [k];
      forall i, j | 0 <= i < j < |ks| ensures ks[i] != ks[j] {
        if j == |keys| { assert ks[i] in keys; }
      }
    }
  }

  /** Setting a count adds the new count and drops the old one. */
  lemma SumInsert<K(!new)>(keys: seq<K>, m: map<K, nat>, k: K, v: nat)
    requires KeyedBy(keys, m)
    ensures forall i :: 0 <= i < |keys| ==> keys[i] in m
    ensures KeyedBy(Inserted(keys, m, k), m[k := v])
    ensures SumOf(Inserted(keys, m, k), m[k := v]) + Get(m, k, 0) == SumOf(keys, m) + v
  {
    KeyedInsert(keys, m, k, v);
    if k in m {
      SumOfUpdate(keys, m, k, v);
    } else {
      var ks := keys + [k];
      SumOfOtherKey(keys, m, k, v);
      assert ks[..|ks| - 1] == keys;
    }
  }

  /** Appending `x` to the list of key `k` adds `x` once to the
      concatenated values. */
  lemma FlattenInsertAppend<K(!new), T>(keys: seq<K>, m: map<K, seq<T>>, k: K, x: T)
    requires KeyedBy(keys, m)
    ensures forall i :: 0 <= i < |keys| ==> keys[i] in m
    ensures KeyedBy(Inserted(keys, m, k), m[k := Get(m, k, []) + [x]])
    ensures multiset(Flatten(Lookup(Inserted(keys, m, k), m[k := Get(m, k, []) + [x]])))
         == multiset(Flatten(Lookup(keys, m))) + multiset{x}
  {
    var m' := m[k := Get(m, k, []) + [x]];
    KeyedInsert(keys, m, k, Get(m, k, []) + [x]);
    if k in m {
      FlattenLookupAppend(keys, m, k, x);
    } else {
      assert m'[k] == [x];
      LookupOtherKey(keys, m, k, [x]);
      GatherAppend(keys, [k], m');
      GatherSingle(k, m');
      assert Flatten(Lookup(keys + [k], m')) == Flatten(Lookup(keys, m)) + [x];
    }
  }

  /** The distinct elements of `s`, each where it first occurs. */
  function FirstSeen<T(==)>(s: seq<T>): (r: seq<T>)
    ensures Distinct(r)
    ensures forall i :: 0 <= i < |r| ==> r[i] in s
    ensures forall i :: 0 <= i < |s| ==> s[i] in r
    decreases |s|
  {
    if |s| == 0 then []
    else
      var r := FirstSeen(s[..|s| - 1]);
      if s[|s| - 1] in r then r else r + [s[|s| - 1]]
  }

  lemma FirstSeenSnoc<T>(s: seq<T>, x: T)
    ensures FirstSeen(s + [x]) == if x in FirstSeen(s) then FirstSeen(s) else FirstSeen(s) + [x]
  {
    assert (s + [x])[..|s|] == s;
  }

  /** `[f(x) for x in s]`. */
  function MapSeq<A, B>(f: A -> B, s: seq<A>): (r: seq<B>)
    ensures |r| == |s| && forall i :: 0 <= i < |s| ==> r[i] == f(s[i])
  {
    seq(|s|, i requires 0 <= i < |s| => f(s[i]))
  }

  lemma MapSeqAppend<A, B>(f: A -> B, a: seq<A>, b: seq<A>)
    ensures MapSeq(f, a + b) == MapSeq(f, a) + MapSeq(f, b)
  {
  }

  lemma MapSeqSplit<A, B>(f: A -> B, s: seq<A>, j: nat, x: A)
    requires j < |s| && s[j] == x
    ensures multiset(MapSeq(f, s))
         == multiset(MapSeq(f, s[..j] + s[j + 1..])) + multiset{f(x)}
  {
    var left, right := s[..j], s[j + 1..];
    assert s == left + [s[j]] + right;
    MapSeqAppend(f, left + [s[j]], right);
    MapSeqAppend(f, left, [s[j]]);
    MapSeqAppend(f, left, right);
  }

  /** Mapping over two arrangements of the same elements gives two
      arrangements of the same images. */
  lemma {:induction false} MapSeqPermutation<A, B>(f: A -> B, a: seq<A>, b: seq<A>)
    requires multiset(a) == multiset(b)
    ensures multiset(MapSeq(f, a)) == multiset(MapSeq(f, b))
    decreases |a|
  {
    if |a| > 0 {
      var n := |a|;
      var x := a[n - 1];
      var j := IndexOf(b, x);
      var a0, b0 := a[..n - 1], b[..j] + b[j + 1..];
      RemovedLast(a);
      RemovedMultiset(b, j);
      MapSeqPermutation(f, a0, b0);
      MapSeqSplit(f, a, n - 1, x);
      MapSeqSplit(f, b, j, x);
      assert a[..n - 1] + a[n..] == a0;
    } else {
      assert |b| == 0 by { assert |multiset(a)| == |multiset(b)|; }
    }
  }

  lemma RemovedLast<T>(s: seq<T>)
    requires |s| > 0
    ensures multiset(s[..|s| - 1]) == multiset(s) - multiset{s[|s| - 1]}
  {
    assert s == s[..|s| - 1] + [s[|s| - 1]];
  }

  /** A position of an element of a sequence. */
  lemma IndexOf<T>(s: seq<T>, x: T) returns (j: nat)
    requires x in multiset(s)
    ensures j < |s| && s[j] == x
  {
    j :| 0 <= j < |s| && s[j] == x;
  }

  lemma UpdateTwice<K, V>(m: map<K, V>, k: K, a: V, b: V)
    ensures m[k := a][k := b] == m[k := b]
  {
  }

  lemma UpdateSame<K, V>(m: map<K, V>, k: K)
    requires k in m
    ensures m[k := m[k]] == m
  {
  }
}

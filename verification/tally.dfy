/** Counting a sequence of keys by key: what the `quantity` report does with
    day keys and what the ORM's `groupBy` does with category ids. A tally is
    a sequence of (key, count) entries; its order is left open, so the
    properties here speak of counts only. */
module Tally {

  datatype Entry<K> = Entry(key: K, count: nat)

  /** How many times `k` occurs in `ks`. */
  function Count<K(==,!new)>(ks: seq<K>, k: K): (n: nat)
    ensures n <= |ks|
    ensures n == 0 <==> k !in ks
  {
    if ks == [] then 0
    else Count(ks[..|ks| - 1], k) + (if ks[|ks| - 1] == k then 1 else 0)
  }

  /** `ks` with every occurrence of `k` taken out, the rest kept in order. */
  function Without<K(==,!new)>(ks: seq<K>, k: K): (r: seq<K>)
    ensures forall x :: x in r <==> x in ks && x != k
  {
    if ks == [] then []
    else
      var rest := Without(ks[..|ks| - 1], k);
      assert forall x :: x in ks <==> x in ks[..|ks| - 1] || x == ks[|ks| - 1];
      if ks[|ks| - 1] == k then rest else rest + [ks[|ks| - 1]]
  }

  /** Taking out `k` removes exactly `Count(ks, k)` elements. */
  lemma {:induction false} WithoutLength<K(!new)>(ks: seq<K>, k: K)
    ensures |ks| == Count(ks, k) + |Without(ks, k)|
  {
    if ks != [] {
      WithoutLength(ks[..|ks| - 1], k);
    }
  }

  /** Taking out `k` leaves the count of every other key unchanged. */
  lemma {:induction false} WithoutCount<K(!new)>(ks: seq<K>, k: K, x: K)
    requires x != k
    ensures Count(Without(ks, k), x) == Count(ks, x)
  {
    if ks != [] {
      var init := ks[..|ks| - 1];
      WithoutCount(init, k, x);
      var rest := Without(init, k);
      if ks[|ks| - 1] != k {
        assert (rest + [ks[|ks| - 1]])[..|rest|] == rest;
      }
    }
  }

  predicate DistinctKeys<K(==,!new)>(t: seq<Entry<K>>) {
    forall i, j :: 0 <= i < j < |t| ==> t[i].key != t[j].key
  }

  /** Some entry of `t` has key `x`. */
  predicate HasKey<K(==)>(t: seq<Entry<K>>, x: K) {
    exists i :: 0 <= i < |t| && t[i].key == x
  }

  /** `t` counts `ks`: one entry per distinct key of `ks` and no other,
      each with the number of times its key occurs (so never zero). */
  predicate IsTally<K(==,!new)>(t: seq<Entry<K>>, ks: seq<K>) {
    && DistinctKeys(t)
    && (forall i :: 0 <= i < |t| ==> t[i].key in ks && t[i].count == Count(ks, t[i].key))
    && (forall x :: x in ks ==> HasKey(t, x))
  }

  /** Sum of the counts of a tally. */
  function Total<K>(t: seq<Entry<K>>): nat {
    if t == [] then 0 else t[0].count + Total(t[1..])
  }

  /** Whatever order its entries come in, a tally of `ks` accounts for
      every element of `ks` exactly once. */
  lemma {:induction false} TallyTotal<K(!new)>(t: seq<Entry<K>>, ks: seq<K>)
    requires IsTally(t, ks)
    ensures Total(t) == |ks|
  {
    if ks != [] {
      assert ks[0] in ks;
    }
    if t != [] {
      var k := t[0].key;
      var rest := Without(ks, k);
      WithoutLength(ks, k);
      forall i | 0 <= i < |t[1..]|
        ensures t[1..][i].key in rest && t[1..][i].count == Count(rest, t[1..][i].key)
      {
        assert t[1..][i] == t[i + 1];
        WithoutCount(ks, k, t[i + 1].key);
      }
      forall x | x in rest
        ensures HasKey(t[1..], x)
      {
        var i :| 0 <= i < |t| && t[i].key == x;
        assert i != 0 && t[1..][i - 1] == t[i];
      }
      TallyTotal(t[1..], rest);
    }
  }

  /** `t` with the entry for `k` incremented, or a new entry `(k, 1)`
      appended when `k` has none yet. */
  function Bump<K(==,!new)>(t: seq<Entry<K>>, k: K): (r: seq<Entry<K>>)
    ensures |r| == |t| || |r| == |t| + 1
    ensures forall i :: 0 <= i < |t| ==> r[i].key == t[i].key
    ensures forall i :: 0 <= i < |t| ==> r[i].count == t[i].count + (if t[i].key == k then 1 else 0)
    ensures |r| == |t| + 1 <==> !HasKey(t, k)
    ensures |r| == |t| + 1 ==> r[|t|] == Entry(k, 1)
  {
    if HasKey(t, k) then
      seq(|t|, i requires 0 <= i < |t| => if t[i].key == k then Entry(k, t[i].count + 1) else t[i])
    else
      t + [Entry(k, 1)]
  }

  /** A tally of `ks` listing keys in order of first occurrence. */
  function TallyOf<K(==,!new)>(ks: seq<K>): (t: seq<Entry<K>>)
  {
    if ks == [] then [] else Bump(TallyOf(ks[..|ks| - 1]), ks[|ks| - 1])
  }

  /** Counting one more key keeps a tally a tally. */
  lemma BumpTally<K(!new)>(t: seq<Entry<K>>, init: seq<K>, k: K)
    requires IsTally(t, init)
    ensures IsTally(Bump(t, k), init + [k])
  {
    BumpDistinct(t, k);
    BumpCounts(t, init, k);
    BumpCovers(t, init, k);
  }

  lemma BumpCounts<K(!new)>(t: seq<Entry<K>>, init: seq<K>, k: K)
    requires IsTally(t, init)
    ensures var r := Bump(t, k);
      forall i :: 0 <= i < |r| ==> r[i].key in init + [k] && r[i].count == Count(init + [k], r[i].key)
  {
    var ks, r := init + [k], Bump(t, k);
    if k in init {
      var m :| 0 <= m < |init| && init[m] == k;
      var i :| 0 <= i < |t| && t[i].key == init[m];
      assert |r| == |t|;
    }
    forall i | 0 <= i < |r|
      ensures r[i].key in ks && r[i].count == Count(ks, r[i].key)
    {
      CountSnoc(init, k, r[i].key);
      if i < |t| {
        assert t[i].key in init;
      }
    }
  }

  lemma BumpCovers<K(!new)>(t: seq<Entry<K>>, init: seq<K>, k: K)
    requires IsTally(t, init)
    ensures forall x :: x in init + [k] ==> HasKey(Bump(t, k), x)
  {
    var r := Bump(t, k);
    forall x | x in init + [k]
      ensures HasKey(r, x)
    {
      if x in init {
        var i :| 0 <= i < |t| && t[i].key == x;
        assert r[i].key == x;
      } else {
        assert r[|t|].key == x;
      }
    }
  }

  lemma CountSnoc<K(!new)>(ks: seq<K>, k: K, x: K)
    ensures Count(ks + [k], x) == Count(ks, x) + (if x == k then 1 else 0)
  {
    assert (ks + [k])[..|ks|] == ks;
  }

  lemma BumpDistinct<K(!new)>(t: seq<Entry<K>>, k: K)
    requires DistinctKeys(t)
    ensures DistinctKeys(Bump(t, k))
  {
    var r := Bump(t, k);
    forall i, j | 0 <= i < j < |r|
      ensures r[i].key != r[j].key
    {
      if j == |t| {
        assert r[j].key == k && t[i].key != k;
      }
    }
  }

  /** `Count` is the multiplicity of the key in the multiset of `ks`. */
  lemma {:induction false} CountIsMultiplicity<K(!new)>(ks: seq<K>, k: K)
    ensures Count(ks, k) == multiset(ks)[k]
  {
    if ks != [] {
      var init := ks[..|ks| - 1];
      CountIsMultiplicity(init, k);
      assert ks == init + [ks[|ks| - 1]];
    }
  }

  /** Whether `t` is a tally depends only on which keys occur how often,
      not on the order of `ks`. */
  lemma TallyPermutation<K(!new)>(t: seq<Entry<K>>, ks: seq<K>, ks': seq<K>)
    requires multiset(ks) == multiset(ks')
    ensures IsTally(t, ks) <==> IsTally(t, ks')
  {
    forall x
      ensures Count(ks, x) == Count(ks', x)
      ensures x in ks <==> x in ks'
    {
      CountIsMultiplicity(ks, x);
      CountIsMultiplicity(ks', x);
      assert x in ks <==> x in multiset(ks);
      assert x in ks' <==> x in multiset(ks');
    }
  }

  /** The reference grouping really is a tally of its input. */
  lemma {:induction false} TallyOfIsTally<K(!new)>(ks: seq<K>)
    ensures IsTally(TallyOf(ks), ks)
  {
    if ks != [] {
      var init := ks[..|ks| - 1];
      TallyOfIsTally(init);
      BumpTally(TallyOf(init), init, ks[|ks| - 1]);
      assert init + [ks[|ks| - 1]] == ks;
    }
  }
}

/**
 A Python `dict` as an insertion-ordered sequence of (key, value) entries with
 at most one entry per key, together with `zip` and `dict(pairs)`.
 */
module OrderedDict {
  import opened Base

  function KeysOf<K, V>(ps: seq<(K, V)>): seq<K> {
    seq(|ps|, i requires 0 <= i < |ps| => ps[i].0)
  }

  predicate DistinctKeys<K(==,!new), V>(d: seq<(K, V)>) {
    forall i, j :: 0 <= i < j < |d| ==> d[i].0 != d[j].0
  }

  /** `d.get(k)`: the value of the first entry with key `k`. */
  function Get<K(==,!new), V>(d: seq<(K, V)>, k: K): (r: Option<V>)
    ensures r.None? <==> k !in KeysOf(d)
    ensures r.Some? ==> (k, r.value) in d
  {
    if k in KeysOf(d) then Some(d[FirstIndex(KeysOf(d), k)].1) else None
  }

  /** `d[k] = v`: an existing key keeps its position and takes the new value;
      a new key is appended at the end. */
  function Set<K(==,!new), V>(d: seq<(K, V)>, k: K, v: V): (r: seq<(K, V)>)
    ensures k !in KeysOf(d) ==> r == d + [(k, v)]
    ensures KeysOf(r) == if k in KeysOf(d) then KeysOf(d) else KeysOf(d) + [k]
    ensures DistinctKeys(d) ==> DistinctKeys(r)
    ensures Get(r, k) == Some(v)
    ensures forall k' :: k' != k ==> Get(r, k') == Get(d, k')
    ensures forall e :: e in r ==> e in d || e == (k, v)
  {
    if k in KeysOf(d) then
      var r := d[FirstIndex(KeysOf(d), k) := (k, v)];
      assert KeysOf(r) == KeysOf(d);
      r
    else
      var r := d + [(k, v)];
      assert KeysOf(r) == KeysOf(d) + [k];
      assert forall i :: 0 <= i < |d| ==> d[i].0 == KeysOf(d)[i];
      FirstIndexAppendNew(KeysOf(d), k);
      FirstIndexAppendAll(KeysOf(d), k);
      r
  }

  /** `zip(a, b)`: pairs up to the shorter of the two. */
  function Zip<A, B>(a: seq<A>, b: seq<B>): (z: seq<(A, B)>)
    ensures |z| == if |a| <= |b| then |a| else |b|
    ensures forall i :: 0 <= i < |z| ==> z[i] == (a[i], b[i])
  {
    if |a| == 0 || |b| == 0 then [] else [(a[0], b[0])] + Zip(a[1..], b[1..])
  }

  /** Zipping lists of equal length keeps the whole first list as keys. */
  lemma ZipKeys<A, B>(a: seq<A>, b: seq<B>)
    requires |a| == |b|
    ensures KeysOf(Zip(a, b)) == a
  {
  }

  /** `dict(pairs)`: the pairs inserted one after the other with `Set`. */
  function FromPairs<K(==,!new), V>(ps: seq<(K, V)>): (d: seq<(K, V)>)
    ensures DistinctKeys(d)
    ensures forall k :: k in KeysOf(d) <==> k in KeysOf(ps)
    ensures forall e :: e in d ==> e in ps
  {
    if |ps| == 0 then []
    else
      var last := ps[|ps| - 1];
      assert KeysOf(ps) == KeysOf(ps[..|ps| - 1]) + [last.0];
      var d := Set(FromPairs(ps[..|ps| - 1]), last.0, last.1);
      assert forall e :: e in ps[..|ps| - 1] ==> e in ps;
      d
  }

  /** Position of the first occurrence of `x` in `s`. */
  function FirstIndex<T(==)>(s: seq<T>, x: T): (i: nat)
    requires x in s
    ensures i < |s| && s[i] == x && x !in s[..i]
  {
    if s[0] == x then 0
    else
      assert s[1..][..FirstIndex(s[1..], x)] == s[1..FirstIndex(s[1..], x) + 1];
      1 + FirstIndex(s[1..], x)
  }

  /** Position of the last occurrence of `x` in `s`. */
  function LastIndex<T(==)>(s: seq<T>, x: T): (i: nat)
    requires x in s
    ensures i < |s| && s[i] == x && x !in s[i + 1..]
  {
    if s[|s| - 1] == x then |s| - 1
    else
      assert s == s[..|s| - 1] + [s[|s| - 1]];
      var i := LastIndex(s[..|s| - 1], x);
      assert s[i + 1..] == s[..|s| - 1][i + 1..] + [s[|s| - 1]];
      i
  }

  /** The value of the last pair whose key is `k`. */
  function LastValue<K(==,!new), V>(ps: seq<(K, V)>, k: K): V
    requires k in KeysOf(ps)
  {
    var last := ps[|ps| - 1];
    if last.0 == k then last.1
    else
      assert KeysOf(ps) == KeysOf(ps[..|ps| - 1]) + [last.0];
      LastValue(ps[..|ps| - 1], k)
  }

  /** Appending an element does not move an existing first occurrence. */
  lemma {:induction false} FirstIndexAppend<T>(s: seq<T>, y: T, x: T)
    requires x in s
    ensures FirstIndex(s + [y], x) == FirstIndex(s, x)
  {
    if s[0] != x {
      assert (s + [y])[1..] == s[1..] + [y];
      FirstIndexAppend(s[1..], y, x);
    }
  }

  lemma FirstIndexAppendAll<T>(s: seq<T>, y: T)
    ensures forall x :: x in s ==> FirstIndex(s + [y], x) == FirstIndex(s, x)
  {
    forall x | x in s
      ensures FirstIndex(s + [y], x) == FirstIndex(s, x)
    {
      FirstIndexAppend(s, y, x);
    }
  }

  /** An element new to `s` first occurs at the end of `s + [y]`. */
  lemma {:induction false} FirstIndexAppendNew<T>(s: seq<T>, y: T)
    requires y !in s
    ensures FirstIndex(s + [y], y) == |s|
  {
    if |s| > 0 {
      assert (s + [y])[1..] == s[1..] + [y];
      FirstIndexAppendNew(s[1..], y);
    }
  }

  /** The last pair with a given key decides its value in `dict(pairs)`. */
  lemma {:induction false} FromPairsLastWins<K(!new), V>(ps: seq<(K, V)>, k: K)
    requires k in KeysOf(ps)
    ensures Get(FromPairs(ps), k) == Some(LastValue(ps, k))
  {
    var last := ps[|ps| - 1];
    var pre := ps[..|ps| - 1];
    assert KeysOf(ps) == KeysOf(pre) + [last.0];
    if last.0 != k {
      FromPairsLastWins(pre, k);
    }
  }

  /** Every element of `ks` occurs in `ref`, and `ks` lists them in the order
      of their first occurrences in `ref`. */
  ghost predicate FirstSeenOrder<T>(ks: seq<T>, ref: seq<T>) {
    && (forall x :: x in ks ==> x in ref)
    && forall i, j :: 0 <= i < j < |ks| ==> FirstIndex(ref, ks[i]) < FirstIndex(ref, ks[j])
  }

  lemma FirstSeenOrderExtend<T>(ks: seq<T>, ref: seq<T>, y: T)
    requires FirstSeenOrder(ks, ref)
    ensures FirstSeenOrder(ks, ref + [y])
    ensures y !in ref ==> FirstSeenOrder(ks + [y], ref + [y])
  {
    FirstIndexAppendAll(ref, y);
    if y !in ref {
      FirstIndexAppendNew(ref, y);
      var ks' := ks + [y];
      forall i, j | 0 <= i < j < |ks'|
        ensures FirstIndex(ref + [y], ks'[i]) < FirstIndex(ref + [y], ks'[j])
      {
        assert ks'[i] == ks[i] && ks[i] in ref;
        if j < |ks| {
          assert ks'[j] == ks[j];
        }
      }
    }
  }

  /** Keys of `dict(pairs)` stand in the order in which they were first seen. */
  lemma {:induction false} FromPairsFirstSeenOrder<K(!new), V>(ps: seq<(K, V)>)
    ensures FirstSeenOrder(KeysOf(FromPairs(ps)), KeysOf(ps))
  {
    if |ps| > 0 {
      var last := ps[|ps| - 1];
      var pre := ps[..|ps| - 1];
      assert KeysOf(ps) == KeysOf(pre) + [last.0];
      FromPairsFirstSeenOrder(pre);
      FirstSeenOrderExtend(KeysOf(FromPairs(pre)), KeysOf(pre), last.0);
    }
  }

  /** Pairs whose keys are already distinct form the dict unchanged. */
  lemma {:induction false} FromPairsOfDistinct<K(!new), V>(ps: seq<(K, V)>)
    requires DistinctKeys(ps)
    ensures FromPairs(ps) == ps
  {
    if |ps| > 0 {
      var pre := ps[..|ps| - 1];
      DistinctDropLast(ps);
      FromPairsOfDistinct(pre);
      FromPairsStep(ps);
      DropLastAppend(ps);
    }
  }

  lemma DropLastAppend<T>(s: seq<T>)
    requires |s| > 0
    ensures s[..|s| - 1] + [s[|s| - 1]] == s
  {
  }

  /** `dict(pairs)` inserts the last pair into the dict of the others. */
  lemma FromPairsStep<K(!new), V>(ps: seq<(K, V)>)
    requires |ps| > 0
    ensures FromPairs(ps) == Set(FromPairs(ps[..|ps| - 1]), ps[|ps| - 1].0, ps[|ps| - 1].1)
  {
  }

  lemma DistinctDropLast<K(!new), V>(ps: seq<(K, V)>)
    requires DistinctKeys(ps) && |ps| > 0
    ensures DistinctKeys(ps[..|ps| - 1])
    ensures ps[|ps| - 1].0 !in KeysOf(ps[..|ps| - 1])
  {
    var pre := ps[..|ps| - 1];
    forall i, j | 0 <= i < j < |pre| ensures pre[i].0 != pre[j].0 {
      assert pre[i] == ps[i] && pre[j] == ps[j];
    }
    forall i | 0 <= i < |pre| ensures KeysOf(pre)[i] != ps[|ps| - 1].0 {
      assert pre[i] == ps[i];
    }
  }

  /** The value zipped with the last occurrence of a key wins. */
  lemma {:induction false} LastValueZip<A(!new), B>(a: seq<A>, b: seq<B>, k: A)
    requires |a| == |b| && k in a
    ensures KeysOf(Zip(a, b)) == a
    ensures LastValue(Zip(a, b), k) == b[LastIndex(a, k)]
  {
    var n := |a|;
    assert KeysOf(Zip(a, b)) == a;
    if a[n - 1] != k {
      ZipPrefix(a, b);
      LastIndexDrop(a, k);
      LastValueZip(a[..n - 1], b[..n - 1], k);
    }
  }

  lemma ZipPrefix<A, B>(a: seq<A>, b: seq<B>)
    requires |a| == |b| > 0
    ensures Zip(a, b)[..|a| - 1] == Zip(a[..|a| - 1], b[..|a| - 1])
  {
  }

  /** Dropping a last element other than `x` leaves its last occurrence. */
  lemma LastIndexDrop<T>(s: seq<T>, x: T)
    requires x in s && s[|s| - 1] != x
    ensures x in s[..|s| - 1] && LastIndex(s, x) == LastIndex(s[..|s| - 1], x)
  {
    assert s == s[..|s| - 1] + [s[|s| - 1]];
  }
}

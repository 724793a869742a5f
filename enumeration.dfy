/** What a Go `for k, v := range m` loop sees: every entry exactly once, in an order
    the program must not depend on. `Image(m, f)` is the multiset of `f(k, m[k])`. */
module Enumeration {

  ghost function Image<K(!new), V, T>(m: map<K, V>, f: (K, V) -> T): (r: multiset<T>)
    ensures |r| == |m|
    decreases |m|
  {
    if |m| == 0 then multiset{}
    else
      var k := Pick(m);
      RemoveOne(m, k);
      multiset{f(k, m[k])} + Image(m - {k}, f)
  }

  /** The same entries as a sequence, in the order `Image` takes them. */
  ghost function Listing<K(!new), V, T>(m: map<K, V>, f: (K, V) -> T): (r: seq<T>)
    ensures multiset(r) == Image(m, f)
    decreases |m|
  {
    if |m| == 0 then []
    else
      var k := Pick(m);
      RemoveOne(m, k);
      [f(k, m[k])] + Listing(m - {k}, f)
  }

  ghost function Pick<K(!new), V>(m: map<K, V>): (k: K)
    requires |m| > 0
    ensures k in m
  {
    assert |m.Keys| > 0;
    var k :| k in m.Keys; k
  }

  lemma RemoveOne<K, V>(m: map<K, V>, k: K)
    requires k in m
    ensures |m - {k}| == |m| - 1
  {
    assert (m - {k}).Keys == m.Keys - {k};
  }

  /** The image does not depend on which entry is taken first: removing any one entry
      removes exactly its element. This is what lets a loop visit entries in any order. */
  lemma {:induction false} ImageRemove<K(!new), V, T>(m: map<K, V>, f: (K, V) -> T, k: K)
    requires k in m
    ensures Image(m, f) == multiset{f(k, m[k])} + Image(m - {k}, f)
    decreases |m|
  {
    var j := Pick(m);
    RemoveOne(m, j);
    if j != k {
      RemoveOne(m, k);
      ImageRemove(m - {j}, f, k);
      ImageRemove(m - {k}, f, j);
      RemoveBoth(m, j, k);
      Swap(f(j, m[j]), f(k, m[k]), Image(m - {j} - {k}, f));
    }
  }

  lemma RemoveBoth<K, V>(m: map<K, V>, j: K, k: K)
    ensures m - {j} - {k} == m - {k} - {j}
  {
  }

  lemma Swap<T>(a: T, b: T, rest: multiset<T>)
    ensures multiset{a} + (multiset{b} + rest) == multiset{b} + (multiset{a} + rest)
  {
  }

  /** Every element of the image comes from an entry, and every entry contributes. */
  lemma {:induction false} ImageMembers<K(!new), V, T>(m: map<K, V>, f: (K, V) -> T, t: T)
    ensures t in Image(m, f) <==> exists k :: k in m && f(k, m[k]) == t
    decreases |m|
  {
    if |m| > 0 {
      var k := Pick(m);
      RemoveOne(m, k);
      assert Image(m, f) == multiset{f(k, m[k])} + Image(m - {k}, f);
      ImageMembers(m - {k}, f, t);
      if t in Image(m, f) && t != f(k, m[k]) {
        var k' :| k' in m - {k} && f(k', (m - {k})[k']) == t;
        assert k' in m && f(k', m[k']) == t;
      }
      if exists k' :: k' in m && f(k', m[k']) == t {
        var k' :| k' in m && f(k', m[k']) == t;
        if k' != k { assert k' in m - {k} && f(k', (m - {k})[k']) == t; }
      }
    }
  }
}

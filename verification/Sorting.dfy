/** What sorting means: elements are compared by key only, so a sort must keep elements with equal
    keys in their order.  Stability is stated key by key and implies being a permutation. */
module Sorting {

  datatype Item = Item(key: int, tag: int)

  function Compare(x: Item, y: Item): int { x.key - y.key }

  ghost predicate Sorted(s: seq<Item>) {
    forall i, j :: 0 <= i <= j < |s| ==> s[i].key <= s[j].key
  }

  /** The elements with key k, in order. */
  ghost function WithKey(s: seq<Item>, k: int): seq<Item> {
    if s == [] then [] else (if s[0].key == k then [s[0]] else []) + WithKey(s[1..], k)
  }

  /** Same elements, and those with equal keys in the same order. */
  ghost predicate Stable(s: seq<Item>, t: seq<Item>) {
    forall k :: WithKey(s, k) == WithKey(t, k)
  }

  lemma {:induction false} WithKeyConcat(s: seq<Item>, t: seq<Item>, k: int)
    ensures WithKey(s + t, k) == WithKey(s, k) + WithKey(t, k)
  {
    if s == [] {
      assert s + t == t;
    } else {
      WithKeyConcat(s[1..], t, k);
      assert (s + t)[1..] == s[1..] + t;
    }
  }

  lemma StableConcat(s: seq<Item>, s': seq<Item>, t: seq<Item>, t': seq<Item>)
    requires Stable(s, s') && Stable(t, t')
    ensures Stable(s + t, s' + t')
  {
    forall k
      ensures WithKey(s + t, k) == WithKey(s' + t', k)
    {
      WithKeyConcat(s, t, k);
      WithKeyConcat(s', t', k);
    }
  }

  lemma {:induction false} NoneWithKey(s: seq<Item>, k: int)
    requires forall y :: y in s ==> y.key != k
    ensures WithKey(s, k) == []
  {
    if s != [] { NoneWithKey(s[1..], k); }
  }

  /** Moving one element across elements with other keys. */
  lemma StableMove(q: seq<Item>, x: Item)
    requires forall y :: y in q ==> y.key != x.key
    ensures Stable(q + [x], [x] + q)
  {
    forall k
      ensures WithKey(q + [x], k) == WithKey([x] + q, k)
    {
      WithKeyConcat(q, [x], k);
      WithKeyConcat([x], q, k);
      if k == x.key { NoneWithKey(q, k); }
    }
  }

  lemma {:induction false} CountWithKey(s: seq<Item>, x: Item)
    ensures multiset(s)[x] == multiset(WithKey(s, x.key))[x]
  {
    if s != [] {
      assert s == [s[0]] + s[1..];
      CountWithKey(s[1..], x);
    }
  }

  /** A stable rearrangement is a permutation. */
  lemma StableIsPermutation(s: seq<Item>, t: seq<Item>)
    requires Stable(s, t)
    ensures multiset(s) == multiset(t) && |s| == |t|
  {
    forall x
      ensures multiset(s)[x] == multiset(t)[x]
    {
      CountWithKey(s, x);
      CountWithKey(t, x);
    }
    assert |multiset(s)| == |s| && |multiset(t)| == |t|;
  }

  /** Sortedness and stability leave only one possible result. */
  lemma {:induction false} StableSortIsUnique(s: seq<Item>, t: seq<Item>)
    requires Sorted(s) && Sorted(t) && Stable(s, t)
    ensures s == t
  {
    StableIsPermutation(s, t);
    if s != [] {
      assert s[0] in multiset(t) && t[0] in multiset(s);
      var k := s[0].key;
      assert t[0].key == k;
      assert WithKey(s, k)[0] == s[0] && WithKey(t, k)[0] == t[0];
      assert WithKey(s, k) == WithKey(t, k) && s[0] == t[0];
      forall k' ensures WithKey(s[1..], k') == WithKey(t[1..], k') {
        var head := if s[0].key == k' then [s[0]] else [];
        assert WithKey(s, k') == head + WithKey(s[1..], k') && WithKey(t, k') == head + WithKey(t[1..], k');
        assert WithKey(s, k')[|head|..] == WithKey(s[1..], k') && WithKey(t, k')[|head|..] == WithKey(t[1..], k');
      }
      StableSortIsUnique(s[1..], t[1..]);
    }
  }

  /** From pre to post only the cells lo..hi are rearranged, stably. */
  ghost predicate Rearranged(pre: seq<Item>, post: seq<Item>, lo: nat, hi: nat) {
    && lo <= hi <= |pre| == |post|
    && pre[..lo] == post[..lo] && pre[hi..] == post[hi..]
    && Stable(pre[lo..hi], post[lo..hi])
  }

  lemma RearrangedIsStable(pre: seq<Item>, post: seq<Item>, lo: nat, hi: nat)
    requires Rearranged(pre, post, lo, hi)
    ensures Stable(pre, post)
  {
    assert pre == pre[..lo] + pre[lo..hi] + pre[hi..] && post == post[..lo] + post[lo..hi] + post[hi..];
    StableConcat(pre[..lo], post[..lo], pre[lo..hi], post[lo..hi]);
    StableConcat(pre[..lo] + pre[lo..hi], post[..lo] + post[lo..hi], pre[hi..], post[hi..]);
  }

  /** A rearrangement within a range is one within any larger range. */
  lemma RearrangedWiden(pre: seq<Item>, post: seq<Item>, lo: nat, hi: nat, lo': nat, hi': nat)
    requires Rearranged(pre, post, lo, hi) && lo' <= lo && hi <= hi' <= |pre|
    ensures Rearranged(pre, post, lo', hi')
  {
    assert pre[lo'..hi'] == pre[lo'..lo] + pre[lo..hi] + pre[hi..hi'];
    assert post[lo'..hi'] == post[lo'..lo] + post[lo..hi] + post[hi..hi'];
    assert pre[..lo] == post[..lo] && pre[hi..] == post[hi..];
    assert pre[lo'..lo] == pre[..lo][lo'..] == post[..lo][lo'..] == post[lo'..lo];
    assert pre[hi..hi'] == pre[hi..][..hi' - hi] == post[hi..][..hi' - hi] == post[hi..hi'];
    StableConcat(pre[lo'..lo], post[lo'..lo], pre[lo..hi], post[lo..hi]);
    StableConcat(pre[lo'..lo] + pre[lo..hi], post[lo'..lo] + post[lo..hi], pre[hi..hi'], post[hi..hi']);
    assert pre[..lo'] == pre[..lo][..lo'] == post[..lo][..lo'] == post[..lo'];
    assert pre[hi'..] == pre[hi..][hi' - hi..] == post[hi..][hi' - hi..] == post[hi'..];
  }

  lemma RearrangedTwice(s: seq<Item>, t: seq<Item>, u: seq<Item>, lo: nat, hi: nat)
    requires Rearranged(s, t, lo, hi) && Rearranged(t, u, lo, hi)
    ensures Rearranged(s, u, lo, hi)
  {
  }

  lemma SortedSlice(s: seq<Item>, lo: nat, hi: nat)
    requires lo <= hi <= |s|
    ensures Sorted(s[lo..hi]) <==> forall i, j :: lo <= i <= j < hi ==> s[i].key <= s[j].key
  {
    var t := s[lo..hi];
    if Sorted(t) {
      forall i, j | lo <= i <= j < hi ensures s[i].key <= s[j].key { assert t[i - lo].key <= t[j - lo].key; }
    }
    if forall i, j :: lo <= i <= j < hi ==> s[i].key <= s[j].key {
      forall i, j | 0 <= i <= j < |t| ensures t[i].key <= t[j].key { assert s[lo + i].key <= s[lo + j].key; }
    }
  }
}

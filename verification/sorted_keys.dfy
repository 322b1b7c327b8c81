/**
 * Sorting by a key under a total preorder fixes the key sequence: any two sorted
 * arrangements of the same elements agree on the key at every position, and differ at
 * most in the order of elements whose keys tie.
 */
module SortedKeys {

  /** `le` is total and transitive, and elements ordered both ways have equal keys. */
  ghost predicate PreorderOnKeys<T(!new), K>(le: (T, T) -> bool, key: T -> K) {
    && (forall x, y :: le(x, y) || le(y, x))
    && (forall x, y, z :: le(x, y) && le(y, z) ==> le(x, z))
    && (forall x, y :: le(x, y) && le(y, x) ==> key(x) == key(y))
  }

  ghost predicate SortedBy<T>(le: (T, T) -> bool, s: seq<T>) {
    forall i, j :: 0 <= i < j < |s| ==> le(s[i], s[j])
  }

  lemma RemoveSortedBy<T>(le: (T, T) -> bool, s: seq<T>, k: nat)
    requires SortedBy(le, s) && k < |s|
    ensures SortedBy(le, s[..k] + s[k + 1..])
  {
  }

  lemma RemoveMultiset<T>(s: seq<T>, k: nat)
    requires k < |s|
    ensures multiset(s[..k] + s[k + 1..]) == multiset(s) - multiset{s[k]}
  {
    assert s == s[..k] + [s[k]] + s[k + 1..];
  }

  lemma TailSortedBy<T>(le: (T, T) -> bool, s: seq<T>)
    requires SortedBy(le, s) && |s| > 0
    ensures SortedBy(le, s[1..])
  {
  }

  lemma TailMultiset<T>(s: seq<T>)
    requires |s| > 0
    ensures multiset(s[1..]) == multiset(s) - multiset{s[0]}
  {
    assert s == [s[0]] + s[1..];
  }

  /** Two sorted arrangements of the same elements start with elements ordered both ways. */
  lemma SameFirst<T(!new), K>(le: (T, T) -> bool, key: T -> K, a: seq<T>, b: seq<T>)
    requires PreorderOnKeys(le, key)
    requires SortedBy(le, a) && SortedBy(le, b) && |a| > 0
    requires multiset(a) == multiset(b)
    ensures |b| > 0 && le(a[0], b[0]) && le(b[0], a[0])
  {
    assert a[0] in multiset(b);
    assert b[0] in multiset(a);
    var k :| 0 <= k < |b| && b[k] == a[0];
    var m :| 0 <= m < |a| && a[m] == b[0];
    if m > 0 {
      assert le(a[0], a[m]);
    }
    if k > 0 {
      assert le(b[0], b[k]);
    }
  }

  /**
   * If element `x`, tied with the first element, sits at position `k` of a sorted sequence,
   * every element up to `k` has the key of `x`.
   */
  lemma LeadingBlock<T(!new), K>(le: (T, T) -> bool, key: T -> K, s: seq<T>, k: nat, x: T)
    requires PreorderOnKeys(le, key)
    requires SortedBy(le, s) && k < |s| && s[k] == x
    requires le(x, s[0]) && le(s[0], x)
    ensures forall j :: 0 <= j <= k ==> key(s[j]) == key(x)
  {
  }

  lemma AgreeAfterRemoval<T, K>(key: T -> K, a: seq<T>, b: seq<T>, k: nat)
    requires 0 < |a| == |b| && k < |b|
    requires forall j :: 0 <= j <= k ==> key(b[j]) == key(a[0])
    requires forall i :: 0 <= i < |a| - 1 ==> key(a[1..][i]) == key((b[..k] + b[k + 1..])[i])
    ensures forall i :: 0 <= i < |a| ==> key(a[i]) == key(b[i])
  {
    var rest := b[..k] + b[k + 1..];
    forall i | 0 < i < |a|
      ensures key(a[i]) == key(b[i])
    {
      assert a[i] == a[1..][i - 1];
      if i - 1 < k {
        assert rest[i - 1] == b[i - 1];
      } else {
        assert rest[i - 1] == b[i];
      }
    }
  }

  lemma {:induction false} SortedPermutationsAgreeOnKeys<T(!new), K>(
    le: (T, T) -> bool, key: T -> K, a: seq<T>, b: seq<T>)
    requires PreorderOnKeys(le, key)
    requires SortedBy(le, a) && SortedBy(le, b)
    requires multiset(a) == multiset(b)
    ensures |a| == |b|
    ensures forall i :: 0 <= i < |a| ==> key(a[i]) == key(b[i])
    decreases |a|
  {
    assert |a| == |multiset(a)| == |multiset(b)| == |b|;
    if |a| > 0 {
      SameFirst(le, key, a, b);
      assert a[0] in multiset(b);
      var k :| 0 <= k < |b| && b[k] == a[0];
      LeadingBlock(le, key, b, k, a[0]);
      RemoveMultiset(b, k);
      TailMultiset(a);
      RemoveSortedBy(le, b, k);
      TailSortedBy(le, a);
      SortedPermutationsAgreeOnKeys(le, key, a[1..], b[..k] + b[k + 1..]);
      AgreeAfterRemoval(key, a, b, k);
    }
  }
}

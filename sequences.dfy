/**
 * The array operations the registry uses on its lists of addresses:
 * `indexOf`, `includes`, `filter(e => e !== x)` and `splice(i, 1)`.
 */
module Sequences {

  /** No element occurs twice. */
  predicate NoDuplicates<T(==)>(s: seq<T>) {
    forall i, j | 0 <= i < j < |s| :: s[i] != s[j]
  }

  /** JavaScript's `indexOf`: the first position of `x`, or -1 when `x` does not occur. */
  function IndexOf<T(==)>(s: seq<T>, x: T): (i: int)
    ensures -1 <= i < |s|
    ensures i == -1 <==> x !in s
    ensures 0 <= i ==> s[i] == x && x !in s[..i]
  {
    if |s| == 0 then -1
    else if s[0] == x then 0
    else
      var j := IndexOf(s[1..], x);
      if j == -1 then
        assert s == [s[0]] + s[1..];
        -1
      else
        assert s[..j + 1] == [s[0]] + s[1..][..j];
        j + 1
  }

  /** `filter(e => e !== x)`: every occurrence of `x` removed, the rest in order. */
  function Without<T(==)>(s: seq<T>, x: T): (r: seq<T>)
    ensures x !in r
    ensures multiset(r) == multiset(s)[x := 0]
    ensures x !in s ==> r == s
    ensures x in s ==> |r| < |s|
  {
    if |s| == 0 then []
    else
      assert s == [s[0]] + s[1..];
      if s[0] == x then Without(s[1..], x) else [s[0]] + Without(s[1..], x)
  }

  /** On a one-element list, the filter keeps the element exactly when it is not `x`. */
  lemma WithoutSingleton<T>(y: T, x: T)
    ensures Without([y], x) == if y == x then [] else [y]
  {
    assert [y][1..] == [];
  }

  /**
   * The filter works piece by piece: filtering a concatenation is filtering
   * each part, in order. With `WithoutSingleton` this fixes the result, so
   * the kept elements stay in their original order.
   */
  lemma {:induction false} WithoutConcat<T>(a: seq<T>, b: seq<T>, x: T)
    ensures Without(a + b, x) == Without(a, x) + Without(b, x)
  {
    if |a| == 0 {
      assert a + b == b;
    } else {
      assert (a + b)[0] == a[0];
      assert (a + b)[1..] == a[1..] + b;
      WithoutConcat(a[1..], b, x);
    }
  }

  /** Filtering `x` out of a list that ends in `x` drops that last element too. */
  lemma {:induction false} WithoutAppendSame<T>(s: seq<T>, x: T)
    ensures Without(s + [x], x) == Without(s, x)
  {
    if |s| == 0 {
      assert s + [x] == [x] + [];
    } else {
      assert (s + [x])[1..] == s[1..] + [x];
      WithoutAppendSame(s[1..], x);
    }
  }

  /** `splice(i, 1)`: the element at position `i` cut out. */
  function RemoveAt<T>(s: seq<T>, i: nat): (r: seq<T>)
    requires i < |s|
    ensures |r| == |s| - 1
    ensures forall k | 0 <= k < i :: r[k] == s[k]
    ensures forall k | i <= k < |r| :: r[k] == s[k + 1]
  {
    s[..i] + s[i + 1..]
  }

  /** Cutting out position `i` removes exactly one copy of the element there. */
  lemma RemoveAtMultiset<T>(s: seq<T>, i: nat)
    requires i < |s|
    ensures multiset(RemoveAt(s, i)) == multiset(s) - multiset{s[i]}
  {
    assert s == s[..i] + [s[i]] + s[i + 1..];
  }

  /** Removing every occurrence of an element keeps a duplicate-free list duplicate-free. */
  lemma {:induction false} WithoutKeepsNoDuplicates<T>(s: seq<T>, x: T)
    requires NoDuplicates(s)
    ensures NoDuplicates(Without(s, x))
  {
    if |s| > 0 {
      TailHasNoDuplicates(s);
      WithoutKeepsNoDuplicates(s[1..], x);
      if s[0] != x {
        var rest := Without(s[1..], x);
        assert multiset(rest)[s[0]] == multiset(s[1..])[s[0]] == 0;
        PrependKeepsNoDuplicates(s[0], rest);
      }
    }
  }

  /** The tail of a duplicate-free list is duplicate-free and lacks its head. */
  lemma TailHasNoDuplicates<T>(s: seq<T>)
    requires NoDuplicates(s) && |s| > 0
    ensures NoDuplicates(s[1..]) && s[0] !in s[1..]
  {
    forall i, j | 0 <= i < j < |s| - 1 ensures s[1..][i] != s[1..][j] {
      assert s[1..][i] == s[i + 1] && s[1..][j] == s[j + 1];
    }
    forall k | 0 <= k < |s| - 1 ensures s[1..][k] != s[0] {
      assert s[1..][k] == s[k + 1];
    }
  }

  /** Putting an absent element in front keeps a duplicate-free list duplicate-free. */
  lemma PrependKeepsNoDuplicates<T>(x: T, s: seq<T>)
    requires NoDuplicates(s) && x !in s
    ensures NoDuplicates([x] + s)
  {
    var r := [x] + s;
    forall i, j | 0 <= i < j < |r| ensures r[i] != r[j] {
      if i == 0 {
        assert r[j] == s[j - 1];
      } else {
        assert r[i] == s[i - 1] && r[j] == s[j - 1];
      }
    }
  }

  /** In a duplicate-free list, removing the first occurrence of `x` removes `x` altogether. */
  lemma RemoveAtIndexOfRemovesAll<T>(s: seq<T>, x: T)
    requires NoDuplicates(s)
    requires x in s
    ensures x !in RemoveAt(s, IndexOf(s, x))
  {
    var i := IndexOf(s, x);
    var r := RemoveAt(s, i);
    forall k | 0 <= k < |r| ensures r[k] != x {
      if k >= i {
        assert r[k] == s[k + 1] && s[i] == x && i < k + 1;
      }
    }
  }

  /** Removing one element keeps a duplicate-free list duplicate-free. */
  lemma RemoveAtKeepsNoDuplicates<T>(s: seq<T>, i: nat)
    requires NoDuplicates(s)
    requires i < |s|
    ensures NoDuplicates(RemoveAt(s, i))
  {
    var r := RemoveAt(s, i);
    forall a, b | 0 <= a < b < |r| ensures r[a] != r[b] {
      var a' := if a < i then a else a + 1;
      var b' := if b < i then b else b + 1;
      assert r[a] == s[a'] && r[b] == s[b'] && a' < b';
    }
  }

  /** Appending an element that is absent keeps a duplicate-free list duplicate-free. */
  lemma AppendKeepsNoDuplicates<T>(s: seq<T>, x: T)
    requires NoDuplicates(s)
    requires x !in s
    ensures NoDuplicates(s + [x])
  {
    var r := s + [x];
    forall i, j | 0 <= i < j < |r| ensures r[i] != r[j] {
      if j == |s| {
        assert r[i] == s[i];
      } else {
        assert r[i] == s[i] && r[j] == s[j];
      }
    }
  }
}

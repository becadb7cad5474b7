/** Optional values, error results and the order-preserving list operations the
    sources take from lodash and from JavaScript's `Set`. */
module Collections {

  datatype Option<+T> = None | Some(value: T)

  datatype Result<+T> = Ok(value: T) | Err(error: string)

  /** Removes every element whose key was seen earlier, keeping first occurrences in order. */
  function UniqBy<T, K(==)>(s: seq<T>, key: T -> K): (r: seq<T>)
    ensures forall i, j :: 0 <= i < j < |r| ==> key(r[i]) != key(r[j])
  {
    if s == [] then
      []
    else
      var front := UniqBy(s[..|s| - 1], key);
      if exists i :: 0 <= i < |front| && key(front[i]) == key(s[|s| - 1]) then front
      else front + [s[|s| - 1]]
  }

  lemma {:induction false} UniqByInventsNothing<T, K>(s: seq<T>, key: T -> K, x: T)
    requires x in UniqBy(s, key)
    ensures x in s
  {
    if x in UniqBy(s[..|s| - 1], key) {
      UniqByInventsNothing(s[..|s| - 1], key, x);
    }
  }

  /** Every key keeps a representative. */
  lemma {:induction false} UniqByKeepsKey<T, K>(s: seq<T>, key: T -> K, x: T) returns (y: T)
    requires x in s
    ensures y in UniqBy(s, key) && key(y) == key(x)
  {
    var front, last := s[..|s| - 1], s[|s| - 1];
    var kept := UniqBy(front, key);
    if x in front {
      y := UniqByKeepsKey(front, key, x);
    } else if exists i :: 0 <= i < |kept| && key(kept[i]) == key(last) {
      var i :| 0 <= i < |kept| && key(kept[i]) == key(last);
      y := kept[i];
    } else {
      y := last;
    }
  }

  /** The key of the k-th element does not occur earlier. */
  predicate IsFirst<T, K(==)>(s: seq<T>, key: T -> K, k: nat) {
    k < |s| && forall j :: 0 <= j < k ==> key(s[j]) != key(s[k])
  }

  /** The positions below n at which a key occurs first, in order. */
  function Firsts<T, K(==)>(s: seq<T>, key: T -> K, n: nat): (ps: seq<nat>)
    requires n <= |s|
    ensures forall i :: 0 <= i < |ps| ==> ps[i] < n
    ensures forall i, j :: 0 <= i < j < |ps| ==> ps[i] < ps[j]
    ensures forall k: nat :: k in ps <==> k < n && IsFirst(s, key, k)
  {
    if n == 0 then []
    else Firsts(s, key, n - 1) + (if IsFirst(s, key, n - 1) then [n - 1] else [])
  }

  predicate HasKey<T, K(==)>(s: seq<T>, key: T -> K, k: K) {
    exists i :: 0 <= i < |s| && key(s[i]) == k
  }

  lemma UniqByHasKey<T, K>(s: seq<T>, key: T -> K, k: K)
    ensures HasKey(UniqBy(s, key), key, k) <==> HasKey(s, key, k)
  {
    var kept := UniqBy(s, key);
    if HasKey(s, key, k) {
      var i :| 0 <= i < |s| && key(s[i]) == k;
      var y := UniqByKeepsKey(s, key, s[i]);
    }
    if HasKey(kept, key, k) {
      var i :| 0 <= i < |kept| && key(kept[i]) == k;
      UniqByInventsNothing(s, key, kept[i]);
    }
  }

  lemma {:induction false} LastIsFirstExactly<T, K>(s: seq<T>, key: T -> K)
    requires s != []
    ensures var n := |s| - 1;
      UniqBy(s, key) == if IsFirst(s, key, n) then UniqBy(s[..n], key) + [s[n]] else UniqBy(s[..n], key)
  {
    var n := |s| - 1;
    UniqByHasKey(s[..n], key, key(s[n]));
    assert HasKey(s[..n], key, key(s[n])) <==> !IsFirst(s, key, n) by {
      assert forall j :: 0 <= j < n ==> s[..n][j] == s[j];
    }
  }

  lemma FirstInFront<T, K>(s: seq<T>, key: T -> K, n: nat, k: nat)
    requires k < n <= |s|
    ensures IsFirst(s[..n], key, k) <==> IsFirst(s, key, k)
  {
    assert forall j :: 0 <= j < n ==> s[..n][j] == s[j];
  }

  /** What is kept, and in which order: the elements at positions where their key occurs first. */
  lemma {:induction false} UniqByExactly<T, K>(s: seq<T>, key: T -> K, n: nat)
    requires n <= |s|
    ensures var kept, ps := UniqBy(s[..n], key), Firsts(s, key, n);
      |kept| == |ps| && forall i :: 0 <= i < |ps| ==> kept[i] == s[ps[i]]
  {
    if n > 0 {
      UniqByExactly(s, key, n - 1);
      LastIsFirstExactly(s[..n], key);
      assert s[..n][..n - 1] == s[..n - 1];
      FirstInFront(s, key, n, n - 1);
    }
  }

  /** First occurrences only: `[...new Set(s)]`. */
  function Uniq<T(==)>(s: seq<T>): (r: seq<T>)
    ensures forall x :: x in r ==> x in s
    ensures forall x :: x in s ==> x in r
    ensures forall i, j :: 0 <= i < j < |r| ==> r[i] != r[j]
    ensures s != [] ==> r != []
  {
    var r := UniqBy(s, x => x);
    UniqIsSameSet(s);
    r
  }

  lemma UniqIsSameSet<T>(s: seq<T>)
    ensures forall x :: x in UniqBy(s, y => y) ==> x in s
    ensures forall x :: x in s ==> x in UniqBy(s, y => y)
    ensures s != [] ==> UniqBy(s, y => y) != []
  {
    forall x | x in UniqBy(s, y => y)
      ensures x in s
    {
      UniqByInventsNothing(s, y => y, x);
    }
    forall x | x in s
      ensures x in UniqBy(s, y => y)
    {
      var _ := UniqByKeepsKey(s, y => y, x);
    }
    assert s != [] ==> s[0] in s;
  }

  function Min(a: int, b: int): (r: int)
    ensures r <= a && r <= b && (r == a || r == b)
  {
    if a <= b then a else b
  }

  function Max(a: int, b: int): (r: int)
    ensures r >= a && r >= b && (r == a || r == b)
  {
    if a >= b then a else b
  }
}

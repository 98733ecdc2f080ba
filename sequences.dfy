/** Sequence operations behind the Python list methods the components use:
    `pop(k)`, `index(x)` and `remove(x)`, with the "no repetitions" property. */
module Sequences {

  /** `s` with its element at index `k` taken out. */
  function RemoveAt<T>(s: seq<T>, k: nat): (r: seq<T>)
    requires k < |s|
    ensures |r| == |s| - 1
    ensures forall i {:trigger r[i]} :: 0 <= i < k ==> r[i] == s[i]
    ensures forall i :: k <= i < |r| ==> r[i] == s[i + 1]
  {
    seq(|s| - 1, i requires 0 <= i < |s| - 1 => if i < k then s[i] else s[i + 1])
  }

  /** An index where `x` occurs in `s` (the first one). */
  function IndexOf<T(==)>(s: seq<T>, x: T): (k: nat)
    requires x in s
    ensures k < |s| && s[k] == x
  {
    if s[0] == x then 0 else
      assert x in s[1..];
      IndexOf(s[1..], x) + 1
  }

  /** `IndexOf` finds the first occurrence. */
  lemma {:induction false} IndexOfFirst<T>(s: seq<T>, x: T)
    requires x in s
    ensures forall i :: 0 <= i < IndexOf(s, x) ==> s[i] != x
  {
    if s[0] != x {
      assert x in s[1..];
      IndexOfFirst(s[1..], x);
      assert forall i :: 1 <= i < |s| ==> s[i] == s[1..][i - 1];
    }
  }

  /** Python's `list.remove(x)`: the first occurrence of `x` taken out. */
  function Remove<T(==)>(s: seq<T>, x: T): seq<T>
    requires x in s
  {
    RemoveAt(s, IndexOf(s, x))
  }

  /** The elements at positions `i` and `j` differ. */
  ghost predicate Apart<T>(s: seq<T>, i: int, j: int)
    requires 0 <= i < |s| && 0 <= j < |s|
  {
    s[i] != s[j]
  }

  /** No element occurs twice. */
  ghost predicate Distinct<T>(s: seq<T>) {
    forall i, j :: 0 <= i < |s| && 0 <= j < |s| && i != j ==> Apart(s, i, j)
  }

  /** In a sequence without repetitions, the index of an element is the one
      where it occurs. */
  lemma IndexOfDistinct<T>(s: seq<T>, k: nat)
    requires Distinct(s) && k < |s|
    ensures IndexOf(s, s[k]) == k
  {
    var j := IndexOf(s, s[k]);
    assert j == k || Apart(s, j, k);
  }

  /** In a sequence without repetitions, every other position holds a
      different element. */
  lemma DistinctAt<T>(s: seq<T>, k: nat)
    requires Distinct(s) && k < |s|
    ensures forall i :: 0 <= i < |s| && i != k ==> s[i] != s[k]
  {
    forall i | 0 <= i < |s| && i != k
      ensures s[i] != s[k]
    {
      assert Apart(s, i, k);
    }
  }

  /** Appending an element that is not there keeps a sequence without
      repetitions. */
  lemma DistinctAppend<T>(s: seq<T>, x: T)
    requires Distinct(s) && x !in s
    ensures Distinct(s + [x])
  {
    var t := s + [x];
    forall a, b | 0 <= a < |t| && 0 <= b < |t| && a != b
      ensures Apart(t, a, b)
    {
      if a < |s| && b < |s| {
        assert Apart(s, a, b);
      }
    }
  }

  /** Taking an element out of a sequence without repetitions keeps it
      without repetitions and leaves no copy of that element. */
  lemma DistinctRemoveAt<T>(s: seq<T>, k: nat)
    requires Distinct(s) && k < |s|
    ensures Distinct(RemoveAt(s, k))
    ensures forall x :: x in RemoveAt(s, k) ==> x in s && x != s[k]
  {
    var t := RemoveAt(s, k);
    forall a, b | 0 <= a < |t| && 0 <= b < |t| && a != b
      ensures Apart(t, a, b)
    {
      var a', b' := if a < k then a else a + 1, if b < k then b else b + 1;
      assert Apart(s, a', b');
    }
    forall x | x in t
      ensures x in s && x != s[k]
    {
      var a :| 0 <= a < |t| && t[a] == x;
      var a' := if a < k then a else a + 1;
      assert Apart(s, a', k);
    }
  }

  /** Taking out the element at `k` keeps every other element. */
  lemma {:induction false} RemoveAtKeeps<T>(s: seq<T>, k: nat, x: T)
    requires k < |s| && x in s && x != s[k]
    ensures x in RemoveAt(s, k)
  {
    var j :| 0 <= j < |s| && s[j] == x;
    assert RemoveAt(s, k)[if j < k then j else j - 1] == x;
  }

  /** The two parts of a sequence without repetitions have none, and share
      no element. */
  lemma DistinctSplit<T>(a: seq<T>, b: seq<T>)
    requires Distinct(a + b)
    ensures Distinct(a) && Distinct(b)
    ensures forall x :: x in a ==> x !in b
  {
    var t := a + b;
    forall i, j | 0 <= i < |a| && 0 <= j < |a| && i != j
      ensures Apart(a, i, j)
    {
      assert Apart(t, i, j);
    }
    forall i, j | 0 <= i < |b| && 0 <= j < |b| && i != j
      ensures Apart(b, i, j)
    {
      assert Apart(t, |a| + i, |a| + j);
    }
    forall x | x in a
      ensures x !in b
    {
      var i :| 0 <= i < |a| && a[i] == x;
      forall j | 0 <= j < |b|
        ensures b[j] != x
      {
        assert Apart(t, i, |a| + j);
      }
    }
  }

  /** Two sequences without repetitions and without a common element join
      into one without repetitions. */
  lemma DistinctConcat<T>(a: seq<T>, b: seq<T>)
    requires Distinct(a) && Distinct(b)
    requires forall x :: x in a ==> x !in b
    ensures Distinct(a + b)
  {
    var t := a + b;
    forall i, j | 0 <= i < |t| && 0 <= j < |t| && i != j
      ensures Apart(t, i, j)
    {
      if i < |a| && j < |a| {
        assert Apart(a, i, j);
      } else if |a| <= i && |a| <= j {
        assert Apart(b, i - |a|, j - |a|);
      } else if i < |a| {
        assert t[i] in a && t[j] == b[j - |a|];
      } else {
        assert t[j] in a && t[i] == b[i - |a|];
      }
    }
  }

  /** Swapping two blocks keeps a sequence free of repeats. */
  lemma DistinctSwap<T>(a: seq<T>, b: seq<T>)
    requires Distinct(a + b)
    ensures Distinct(b + a)
  {
    DistinctSplit(a, b);
    DistinctConcat(b, a);
  }
}

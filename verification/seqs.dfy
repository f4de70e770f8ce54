/** Small sequence vocabulary shared by the container model: the behaviour of
    java.util.List's indexOf and remove(Object) on an ordered list. */
module Seqs {

  /** No element occurs twice. */
  predicate NoDup<T(==)>(s: seq<T>) {
    forall i, j :: 0 <= i < j < |s| ==> s[i] != s[j]
  }

  /** The last element. */
  function Last<T>(s: seq<T>): T
    requires |s| > 0
  {
    s[|s| - 1]
  }

  /** Dropping the head of a list of two or more keeps its last element. */
  lemma LastOfTail<T>(s: seq<T>)
    requires |s| > 1
    ensures Last(s[1..]) == Last(s)
  {
  }

  /** Index of the first occurrence of x, or -1 when x is absent. */
  function IndexOf<T(==)>(s: seq<T>, x: T): (i: int)
    ensures -1 <= i < |s|
    ensures i == -1 <==> x !in s
    ensures 0 <= i ==> s[i] == x && x !in s[..i]
  {
    if |s| == 0 then -1
    else if s[0] == x then 0
    else
      var j := IndexOf(s[1..], x);
      if j == -1 then -1
      else
        assert s[..j + 1] == [s[0]] + s[1..][..j];
        j + 1
  }

  /** Removes the first occurrence of x; the other elements keep their order. */
  function Remove<T(==)>(s: seq<T>, x: T): (r: seq<T>)
    ensures x !in s ==> r == s
    ensures x in s ==> |r| == |s| - 1
    ensures x in s ==> forall k :: 0 <= k < IndexOf(s, x) ==> r[k] == s[k]
    ensures x in s ==> forall k :: IndexOf(s, x) <= k < |r| ==> r[k] == s[k + 1]
  {
    if |s| == 0 then []
    else if s[0] == x then s[1..]
    else [s[0]] + Remove(s[1..], x)
  }

  /** Removing never introduces an element. */
  lemma {:induction false} RemoveSubset<T>(s: seq<T>, x: T)
    ensures forall y :: y in Remove(s, x) ==> y in s
  {
    if |s| > 0 && s[0] != x {
      RemoveSubset(s[1..], x);
      assert s == [s[0]] + s[1..];
    }
  }

  /** Removing from a duplicate-free list removes x entirely and keeps every
      other element and the absence of duplicates. */
  lemma {:induction false} RemoveFromNoDup<T>(s: seq<T>, x: T)
    requires NoDup(s)
    ensures NoDup(Remove(s, x)) && x !in Remove(s, x)
    ensures forall y :: y in Remove(s, x) <==> y in s && y != x
  {
    if |s| > 0 {
      assert s == [s[0]] + s[1..];
      if s[0] != x {
        RemoveFromNoDup(s[1..], x);
        var r := Remove(s, x);
        assert r == [s[0]] + Remove(s[1..], x);
        assert s[0] !in s[1..];
      }
    }
  }

  /** RemoveFromNoDup's conclusions, conditional on its premise. */
  lemma RemoveIfNoDup<T>(s: seq<T>, x: T)
    ensures NoDup(s) ==> NoDup(Remove(s, x)) && x !in Remove(s, x)
    ensures NoDup(s) ==> forall y :: y in Remove(s, x) <==> y in s && y != x
  {
    if NoDup(s) {
      RemoveFromNoDup(s, x);
    }
  }

  /** Appending an absent element and removing it again restores the list. */
  lemma {:induction false} RemoveAppended<T>(s: seq<T>, x: T)
    requires x !in s
    ensures Remove(s + [x], x) == s
  {
    if |s| > 0 {
      assert (s + [x])[1..] == s[1..] + [x];
      RemoveAppended(s[1..], x);
    } else {
      assert s + [x] == [x];
    }
  }

  /** Removing an element of a from a + b only touches a. */
  lemma {:induction false} RemoveFromFront<T>(a: seq<T>, b: seq<T>, x: T)
    requires x in a
    ensures Remove(a + b, x) == Remove(a, x) + b
  {
    assert (a + b)[0] == a[0];
    if a[0] != x {
      assert (a + b)[1..] == a[1..] + b;
      RemoveFromFront(a[1..], b, x);
    } else {
      assert (a + b)[1..] == a[1..] + b;
    }
  }

  /** Appending x and then b is appending [x] + b. */
  lemma AppendAssoc<T>(a: seq<T>, x: T, b: seq<T>)
    ensures (a + [x]) + b == a + ([x] + b)
  {
  }
}

/** A first-match search over sequences, which is what every scan of the pooled contract computes. */
module Sequences {

  /** The index of the first occurrence of `x`, or `|s|` when there is none. */
  function IndexOf<T(==)>(s: seq<T>, x: T): (i: nat)
    ensures i <= |s|
    ensures i < |s| ==> s[i] == x
    ensures forall j :: 0 <= j < i ==> s[j] != x
    ensures i < |s| <==> x in s
  {
    if |s| == 0 || s[0] == x then 0 else 1 + IndexOf(s[1..], x)
  }

  lemma {:induction false} IndexOfAppend<T>(s: seq<T>, y: T, x: T)
    ensures IndexOf(s + [y], x) == IndexOf(s, x) + if x in s || x == y then 0 else 1
  {
    assert forall j :: 0 <= j < |s| ==> (s + [y])[j] == s[j];
    assert (s + [y])[|s|] == y;
  }

  ghost predicate NoDuplicates<T>(s: seq<T>) {
    forall i, j :: 0 <= i < j < |s| ==> s[i] != s[j]
  }

  lemma {:induction false} DropLastOfAppend<T>(s: seq<T>, x: T)
    ensures (s + [x])[..|s|] == s
  {
  }

  lemma {:induction false} AppendIsAssociative<T>(a: seq<T>, b: seq<T>, c: seq<T>)
    ensures (a + b) + c == a + (b + c)
  {
  }

  /** A value occurs at most once in a duplicate-free sequence ... */
  lemma {:induction false} OccursAtMostOnce<T>(s: seq<T>, x: T)
    requires NoDuplicates(s)
    ensures multiset(s)[x] <= 1
  {
    if |s| > 0 {
      var front, last := s[..|s| - 1], s[|s| - 1];
      assert s == front + [last];
      OccursAtMostOnce(front, x);
      if last == x {
        assert x !in front;
      }
    }
  }

  /** ... and at least twice once two positions hold it. */
  lemma {:induction false} OccursTwice<T>(s: seq<T>, i: nat, j: nat)
    requires i < j < |s| && s[i] == s[j]
    ensures multiset(s)[s[i]] >= 2
  {
    assert s == s[..j] + s[j..];
    assert s[i] in s[..j] && s[i] in s[j..] by {
      assert s[..j][i] == s[i];
      assert s[j..][0] == s[i];
    }
  }
}

/** Facts about slices of sequences that the loops over them need. */
module Sequences {
  /** Taking one more element appends it. */
  lemma TakeOneMore<T>(s: seq<T>, i: nat)
    requires i < |s|
    ensures s[..i + 1] == s[..i] + [s[i]]
  {
  }

  /** Taking everything is the whole sequence. */
  lemma TakeAll<T>(s: seq<T>)
    ensures s[..|s|] == s
  {
  }

  /** Appending keeps the elements already there and puts the new one last. */
  lemma AppendKeeps<T>(s: seq<T>, x: T)
    ensures forall j :: 0 <= j < |s| ==> (s + [x])[j] == s[j]
    ensures (s + [x])[|s|] == x
  {
  }

  /** An element of a non-empty sequence is its head or in its tail. */
  lemma HeadTail<T>(s: seq<T>, x: T)
    requires s != []
    ensures x in s <==> x == s[0] || x in s[1..]
  {
    assert s == [s[0]] + s[1..];
  }

  /** A sequence without repeats holds each element of its set once. */
  lemma DistinctMultiset<T>(s: seq<T>, elems: set<T>)
    requires forall i, j :: 0 <= i < j < |s| ==> s[i] != s[j]
    requires forall x :: x in s <==> x in elems
    ensures multiset(s) == multiset(elems)
  {
    forall x ensures multiset(s)[x] == multiset(elems)[x] {
      if x in elems {
        var i :| 0 <= i < |s| && s[i] == x;
        assert s == s[..i] + [x] + s[i + 1..];
        assert x !in s[..i];
        assert x !in s[i + 1..];
      }
    }
  }

  /** Two permutations of each other hold the same elements. */
  lemma SameElements<T>(a: seq<T>, b: seq<T>)
    requires multiset(a) == multiset(b)
    ensures forall x :: x in a <==> x in b
  {
    forall x ensures x in a <==> x in b {
      assert x in a <==> x in multiset(a);
      assert x in b <==> x in multiset(b);
    }
  }
}

/** Small facts about sequences used throughout the model: membership sets,
    duplicate-freedom and the order-keeping subsequence relation. */
module Seqs {

  /** The set of values that occur in s. */
  function Elements<T>(s: seq<T>): set<T>
  {
    set x | x in s
  }

  /** No value occurs twice in s. */
  predicate NoDups<T(==)>(s: seq<T>)
  {
    forall i, j :: 0 <= i < j < |s| ==> s[i] != s[j]
  }

  /** sub is obtained from s by deleting elements, keeping the order of the rest. */
  predicate IsSubseq<T(==)>(sub: seq<T>, s: seq<T>)
    decreases |s|
  {
    if sub == [] then true
    else if s == [] then false
    else if sub[0] == s[0] then IsSubseq(sub[1..], s[1..])
    else IsSubseq(sub, s[1..])
  }

  /** Duplicate-freedom, one element at a time. */
  lemma NoDupsCons<T>(s: seq<T>)
    requires s != []
    ensures NoDups(s) <==> s[0] !in s[1..] && NoDups(s[1..])
  {
  }

  /** A subsequence holds no value that s does not hold. */
  lemma {:induction false} SubseqElements<T>(sub: seq<T>, s: seq<T>)
    requires IsSubseq(sub, s)
    ensures Elements(sub) <= Elements(s)
    decreases |s|
  {
    if sub != [] {
      if sub[0] == s[0] {
        SubseqElements(sub[1..], s[1..]);
        forall x | x in sub ensures x in s {
          if x != sub[0] {
            assert x in sub[1..];
            assert x in Elements(s[1..]);
          }
        }
      } else {
        SubseqElements(sub, s[1..]);
      }
    }
  }

  /** A subsequence of a duplicate-free sequence is duplicate-free. */
  lemma {:induction false} SubseqNoDups<T>(sub: seq<T>, s: seq<T>)
    requires IsSubseq(sub, s) && NoDups(s)
    ensures NoDups(sub)
    decreases |s|
  {
    if sub != [] {
      NoDupsCons(s);
      if sub[0] == s[0] {
        SubseqNoDups(sub[1..], s[1..]);
        SubseqElements(sub[1..], s[1..]);
        assert sub[0] !in Elements(s[1..]);
        NoDupsCons(sub);
      } else {
        SubseqNoDups(sub, s[1..]);
      }
    }
  }

  /** In a duplicate-free sequence every value occurs at most once. */
  lemma {:induction false} NoDupsCount<T>(s: seq<T>, x: T)
    requires NoDups(s)
    ensures multiset(s)[x] == if x in s then 1 else 0
  {
    if s != [] {
      NoDupsCons(s);
      NoDupsCount(s[1..], x);
      assert s == [s[0]] + s[1..];
    }
  }

  /** Two duplicate-free sequences holding the same values differ only in order. */
  lemma SameElementsPermutation<T>(a: seq<T>, b: seq<T>)
    requires NoDups(a) && NoDups(b) && Elements(a) == Elements(b)
    ensures multiset(a) == multiset(b)
  {
    forall x ensures multiset(a)[x] == multiset(b)[x] {
      NoDupsCount(a, x);
      NoDupsCount(b, x);
      assert x in a <==> x in Elements(b);
    }
  }

  /** The length of a duplicate-free sequence is the number of values it holds. */
  lemma {:induction false} NoDupsCard<T>(s: seq<T>)
    requires NoDups(s)
    ensures |Elements(s)| == |s|
  {
    if s != [] {
      NoDupsCons(s);
      NoDupsCard(s[1..]);
      assert Elements(s) == {s[0]} + Elements(s[1..]);
    }
  }
}

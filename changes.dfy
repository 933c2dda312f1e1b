/** Change detection over activity titles: the deduplication that
    `obtener_actividades` applies to the extracted titles and the list
    comprehension in `main` that picks out the new ones. */
module Changes {
  import opened Seqs

  /** An activity is the trimmed text of one matched element, compared by exact equality. */
  type Activity = string

  /** `list(set(titles))`. Python leaves the order unspecified; this model keeps the
      last occurrence of every title, and everything stated about it is order-free:
      it holds no repeats, holds the same titles, and any other duplicate-free list
      of the same titles is a permutation of it (DedupUpToOrder). */
  function Dedup(titles: seq<Activity>): (r: seq<Activity>)
    ensures NoDups(r)
    ensures forall x :: x in r <==> x in titles
    ensures |r| <= |titles|
  {
    if titles == [] then []
    else
      var rest := Dedup(titles[1..]);
      if titles[0] in titles[1..] then rest
      else
        NoDupsCons([titles[0]] + rest);
        [titles[0]] + rest
  }

  /** Every result `list(set(titles))` can have, whatever order Python picks,
      is a permutation of Dedup(titles). */
  lemma DedupUpToOrder(titles: seq<Activity>, other: seq<Activity>)
    requires NoDups(other) && Elements(other) == Elements(titles)
    ensures multiset(other) == multiset(Dedup(titles))
  {
    var d := Dedup(titles);
    assert Elements(d) == Elements(titles);
    SameElementsPermutation(other, d);
  }

  /** The deduplicated list has exactly one entry per distinct title. */
  lemma DedupLength(titles: seq<Activity>)
    ensures |Dedup(titles)| == |Elements(titles)|
  {
    var d := Dedup(titles);
    NoDupsCard(d);
    assert Elements(d) == Elements(titles);
  }

  /** `[a for a in actuales if a not in previas]`. */
  function Diff(actuales: seq<Activity>, previas: seq<Activity>): (nuevas: seq<Activity>)
    ensures forall x :: x in nuevas <==> x in actuales && x !in previas
    ensures IsSubseq(nuevas, actuales)
  {
    if actuales == [] then []
    else if actuales[0] in previas then Diff(actuales[1..], previas)
    else [actuales[0]] + Diff(actuales[1..], previas)
  }

  /** Because the new list keeps the order of the current one, it has no repeats
      whenever the current list has none; the current list is always an output of
      Dedup, which has none (Pipeline.StepDedupNoticeNoDups). */
  lemma DiffNoDups(actuales: seq<Activity>, previas: seq<Activity>)
    requires NoDups(actuales)
    ensures NoDups(Diff(actuales, previas))
  {
    SubseqNoDups(Diff(actuales, previas), actuales);
  }

  /** The new list keeps every copy of a title that is absent from the previous
      list and drops every copy of one that is present. */
  lemma {:induction false} DiffCount(actuales: seq<Activity>, previas: seq<Activity>, x: Activity)
    ensures multiset(Diff(actuales, previas))[x] == if x in previas then 0 else multiset(actuales)[x]
  {
    if actuales != [] {
      DiffCount(actuales[1..], previas, x);
      assert actuales == [actuales[0]] + actuales[1..];
    }
  }

  /** The order of the current list does not change which titles are new, nor how often. */
  lemma DiffPermutation(a: seq<Activity>, b: seq<Activity>, previas: seq<Activity>)
    requires multiset(a) == multiset(b)
    ensures multiset(Diff(a, previas)) == multiset(Diff(b, previas))
  {
    forall x ensures multiset(Diff(a, previas))[x] == multiset(Diff(b, previas))[x] {
      DiffCount(a, previas, x);
      DiffCount(b, previas, x);
    }
  }

  /** Only the set of previous titles matters: not their order nor their repeats. */
  lemma {:induction false} DiffPreviousAsSet(actuales: seq<Activity>, p: seq<Activity>, q: seq<Activity>)
    requires Elements(p) == Elements(q)
    ensures Diff(actuales, p) == Diff(actuales, q)
  {
    if actuales != [] {
      assert actuales[0] in p <==> actuales[0] in Elements(q);
      DiffPreviousAsSet(actuales[1..], p, q);
    }
  }

  /** With no previous titles every current title is new, in its own order. */
  lemma {:induction false} DiffNoPrevious(actuales: seq<Activity>)
    ensures Diff(actuales, []) == actuales
  {
    if actuales != [] {
      DiffNoPrevious(actuales[1..]);
      assert actuales == [actuales[0]] + actuales[1..];
    }
  }

  /** Nothing is new exactly when every current title was already seen. */
  lemma DiffEmpty(actuales: seq<Activity>, previas: seq<Activity>)
    ensures Diff(actuales, previas) == [] <==> Elements(actuales) <= Elements(previas)
  {
    var d := Diff(actuales, previas);
    if d != [] {
      assert d[0] in actuales && d[0] !in previas;
      assert d[0] in Elements(actuales) && d[0] !in Elements(previas);
    }
  }
}

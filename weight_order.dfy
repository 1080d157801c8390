/**
 * The stable ordering of the quality-definition catalog by ascending weight
 * (LINQ `OrderBy(v => v.Weight)`), written as an insertion sort.
 */
module WeightOrder {
  import opened QualityModels

  /** Weights never decrease along `s`. */
  predicate SortedByWeight(s: seq<QualityDefinition>)
  {
    forall i, j :: 0 <= i < j < |s| ==> s[i].weight <= s[j].weight
  }

  /** The subsequence of the definitions of `s` that have weight `w`, in their order in `s`. */
  function WithWeight(s: seq<QualityDefinition>, w: int): seq<QualityDefinition>
  {
    if s == [] then [] else (if s[0].weight == w then [s[0]] else []) + WithWeight(s[1..], w)
  }

  /** Inserts `d` into `s` after the leading definitions whose weight is at most its own. */
  function InsertByWeight(d: QualityDefinition, s: seq<QualityDefinition>): seq<QualityDefinition>
  {
    if s == [] then [d]
    else if d.weight < s[0].weight then [d] + s
    else [s[0]] + InsertByWeight(d, s[1..])
  }

  /** Inserting adds exactly `d`. */
  lemma {:induction false} InsertByWeightPermutes(d: QualityDefinition, s: seq<QualityDefinition>)
    ensures multiset(InsertByWeight(d, s)) == multiset(s) + multiset{d}
  {
    if s != [] && d.weight >= s[0].weight {
      InsertByWeightPermutes(d, s[1..]);
      assert s == [s[0]] + s[1..];
    }
  }

  /** Inserting keeps every weight at least `low` when `s` and `d` already are. */
  lemma {:induction false} InsertByWeightBounded(d: QualityDefinition, s: seq<QualityDefinition>, low: int)
    requires low <= d.weight
    requires forall k :: 0 <= k < |s| ==> low <= s[k].weight
    ensures forall k :: 0 <= k < |InsertByWeight(d, s)| ==> low <= InsertByWeight(d, s)[k].weight
  {
    if s != [] && d.weight >= s[0].weight {
      InsertByWeightBounded(d, s[1..], low);
    }
  }

  /** Inserting into a sorted sequence keeps it sorted. */
  lemma {:induction false} InsertByWeightSorted(d: QualityDefinition, s: seq<QualityDefinition>)
    requires SortedByWeight(s)
    ensures SortedByWeight(InsertByWeight(d, s))
  {
    if s != [] && d.weight >= s[0].weight {
      var rest := InsertByWeight(d, s[1..]);
      InsertByWeightSorted(d, s[1..]);
      InsertByWeightBounded(d, s[1..], s[0].weight);
      var r := [s[0]] + rest;
      forall i, j | 0 <= i < j < |r|
        ensures r[i].weight <= r[j].weight
      {
        assert r[j] == rest[j - 1];
        if i > 0 {
          assert r[i] == rest[i - 1];
        }
      }
    }
  }

  /** The catalog ordered by ascending weight; definitions of equal weight keep their order. */
  function SortByWeight(s: seq<QualityDefinition>): (r: seq<QualityDefinition>)
    ensures SortedByWeight(r)
    ensures multiset(r) == multiset(s)
    ensures |r| == |s|
  {
    if s == [] then []
    else
      assert s == s[..|s| - 1] + [s[|s| - 1]];
      InsertByWeightSorted(s[|s| - 1], SortByWeight(s[..|s| - 1]));
      InsertByWeightPermutes(s[|s| - 1], SortByWeight(s[..|s| - 1]));
      var r := InsertByWeight(s[|s| - 1], SortByWeight(s[..|s| - 1]));
      assert |multiset(r)| == |r| && |multiset(s)| == |s|;
      r
  }

  /** A definition no lighter than any in `s` goes last. */
  lemma {:induction false} InsertByWeightLast(d: QualityDefinition, s: seq<QualityDefinition>)
    requires forall k :: 0 <= k < |s| ==> s[k].weight <= d.weight
    ensures InsertByWeight(d, s) == s + [d]
  {
    if s != [] {
      InsertByWeightLast(d, s[1..]);
      assert s == [s[0]] + s[1..];
    }
  }

  /** A catalog already in weight order is left as it is. */
  lemma {:induction false} SortByWeightOfSorted(s: seq<QualityDefinition>)
    requires SortedByWeight(s)
    ensures SortByWeight(s) == s
  {
    if s != [] {
      var init := s[..|s| - 1];
      assert SortedByWeight(init);
      SortByWeightOfSorted(init);
      InsertByWeightLast(s[|s| - 1], init);
      assert init + [s[|s| - 1]] == s;
    }
  }

  lemma {:induction false} WithWeightAppend(a: seq<QualityDefinition>, b: seq<QualityDefinition>, w: int)
    ensures WithWeight(a + b, w) == WithWeight(a, w) + WithWeight(b, w)
  {
    if a != [] {
      assert (a + b)[1..] == a[1..] + b;
      WithWeightAppend(a[1..], b, w);
    } else {
      assert a + b == b;
    }
  }

  lemma {:induction false} WithWeightAbsent(s: seq<QualityDefinition>, w: int)
    requires forall k :: 0 <= k < |s| ==> s[k].weight != w
    ensures WithWeight(s, w) == []
  {
    if s != [] {
      WithWeightAbsent(s[1..], w);
    }
  }

  /** Inserting `d` appends it to the definitions of its own weight and leaves the others alone. */
  lemma {:induction false} InsertWithWeight(d: QualityDefinition, s: seq<QualityDefinition>, w: int)
    requires SortedByWeight(s)
    ensures WithWeight(InsertByWeight(d, s), w) == WithWeight(s, w) + (if d.weight == w then [d] else [])
  {
    if s == [] {
      assert [d][1..] == [];
    } else if d.weight < s[0].weight {
      assert ([d] + s)[0] == d && ([d] + s)[1..] == s;
      if d.weight == w {
        WithWeightAbsent(s, w);
      }
    } else {
      var rest := InsertByWeight(d, s[1..]);
      assert SortedByWeight(s[1..]);
      InsertWithWeight(d, s[1..], w);
      assert ([s[0]] + rest)[0] == s[0] && ([s[0]] + rest)[1..] == rest;
      var head := if s[0].weight == w then [s[0]] else [];
      var tail := if d.weight == w then [d] else [];
      calc {
        WithWeight(InsertByWeight(d, s), w);
        head + WithWeight(rest, w);
        head + (WithWeight(s[1..], w) + tail);
        (head + WithWeight(s[1..], w)) + tail;
        WithWeight(s, w) + tail;
      }
    }
  }

  /**
   * The sort is stable: for every weight, the definitions of that weight
   * appear in the result in the same order as in the input.
   */
  lemma {:induction false} SortByWeightStable(s: seq<QualityDefinition>, w: int)
    ensures WithWeight(SortByWeight(s), w) == WithWeight(s, w)
  {
    if s != [] {
      var init, last := s[..|s| - 1], s[|s| - 1];
      assert s == init + [last];
      SortByWeightStable(init, w);
      InsertWithWeight(last, SortByWeight(init), w);
      WithWeightAppend(init, [last], w);
      assert WithWeight([last], w) == (if last.weight == w then [last] else []) by {
        assert [last][1..] == [];
      }
    }
  }
}

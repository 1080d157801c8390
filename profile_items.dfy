/**
 * The canonical item list a quality profile gets from its legacy `Allowed`
 * list: one item per catalog definition, in ascending weight order, flagged
 * allowed exactly when the legacy list contains that quality.
 */
module ProfileItems {
  import opened QualityModels
  import opened WeightOrder

  /** No two definitions of the catalog share a quality. */
  predicate DistinctQualities(catalog: seq<QualityDefinition>)
  {
    forall i, j :: 0 <= i < j < |catalog| ==> catalog[i].quality != catalog[j].quality
  }

  /** The profile's new item list, built from the catalog ordered by weight. */
  function CanonicalItems(catalog: seq<QualityDefinition>, allowed: seq<Quality>): (items: seq<ProfileItem>)
    ensures |items| == |catalog|
    ensures forall i :: 0 <= i < |items| ==> (items[i].allowed <==> items[i].quality in allowed)
  {
    var ordered := SortByWeight(catalog);
    seq(|ordered|, i requires 0 <= i < |ordered| => ProfileItem(ordered[i].quality, ordered[i].quality in allowed))
  }

  lemma {:induction false} SingleOccurrence(catalog: seq<QualityDefinition>, d: QualityDefinition)
    requires DistinctQualities(catalog) && d in catalog
    ensures multiset(catalog)[d] == 1
  {
    assert catalog == [catalog[0]] + catalog[1..];
    if catalog[0] == d {
      assert d !in catalog[1..];
    } else {
      SingleOccurrence(catalog[1..], d);
    }
  }

  lemma RepeatedOccurrence(s: seq<QualityDefinition>, i: int, j: int)
    requires 0 <= i < j < |s| && s[i] == s[j]
    ensures multiset(s)[s[i]] >= 2
  {
    assert s == s[..i] + [s[i]] + s[i + 1..];
    assert s[j] in s[i + 1..];
  }

  /** A reordering of a catalog with distinct qualities still has distinct qualities. */
  lemma PermutationKeepsDistinct(a: seq<QualityDefinition>, b: seq<QualityDefinition>)
    requires multiset(a) == multiset(b) && DistinctQualities(a)
    ensures DistinctQualities(b)
  {
    forall i, j | 0 <= i < j < |b|
      ensures b[i].quality != b[j].quality
    {
      if b[i].quality == b[j].quality {
        assert b[i] in multiset(a) && b[j] in multiset(a);
        var p :| 0 <= p < |a| && a[p] == b[i];
        var q :| 0 <= q < |a| && a[q] == b[j];
        assert p == q;
        RepeatedOccurrence(b, i, j);
        SingleOccurrence(a, b[i]);
        assert false;
      }
    }
  }

  /** The `i`-th item carries the quality of the `i`-th definition in weight order. */
  lemma ItemQualityAt(catalog: seq<QualityDefinition>, allowed: seq<Quality>, i: int)
    requires 0 <= i < |catalog|
    ensures CanonicalItems(catalog, allowed)[i].quality == SortByWeight(catalog)[i].quality
  {
  }

  /**
   * Totality: every catalog quality gets exactly one item, and every item
   * names a catalog quality.
   */
  lemma ItemsCoverCatalogOnce(catalog: seq<QualityDefinition>, allowed: seq<Quality>)
    requires DistinctQualities(catalog)
    ensures var items := CanonicalItems(catalog, allowed);
      && (forall i, j :: 0 <= i < j < |items| ==> items[i].quality != items[j].quality)
      && (forall k :: 0 <= k < |catalog| ==> exists i :: 0 <= i < |items| && items[i].quality == catalog[k].quality)
      && (forall i :: 0 <= i < |items| ==> exists k :: 0 <= k < |catalog| && catalog[k].quality == items[i].quality)
  {
    var items := CanonicalItems(catalog, allowed);
    var ordered := SortByWeight(catalog);
    PermutationKeepsDistinct(catalog, ordered);
    forall i, j | 0 <= i < j < |items|
      ensures items[i].quality != items[j].quality
    {
      ItemQualityAt(catalog, allowed, i);
      ItemQualityAt(catalog, allowed, j);
    }
    forall k | 0 <= k < |catalog|
      ensures exists i :: 0 <= i < |items| && items[i].quality == catalog[k].quality
    {
      assert catalog[k] in multiset(ordered);
      var i :| 0 <= i < |ordered| && ordered[i] == catalog[k];
      ItemQualityAt(catalog, allowed, i);
    }
    forall i | 0 <= i < |items|
      ensures exists k :: 0 <= k < |catalog| && catalog[k].quality == items[i].quality
    {
      assert ordered[i] in multiset(catalog);
      var k :| 0 <= k < |catalog| && catalog[k] == ordered[i];
      ItemQualityAt(catalog, allowed, i);
    }
  }

  /**
   * Order: items follow ascending catalog weight, whatever the order of the
   * legacy allowed list.
   */
  lemma ItemsInWeightOrder(catalog: seq<QualityDefinition>, allowed: seq<Quality>)
    requires DistinctQualities(catalog)
    ensures var items := CanonicalItems(catalog, allowed);
      forall i, j, a, b ::
        0 <= i < j < |items| && 0 <= a < |catalog| && 0 <= b < |catalog| &&
        catalog[a].quality == items[i].quality && catalog[b].quality == items[j].quality
        ==> catalog[a].weight <= catalog[b].weight
  {
    var items := CanonicalItems(catalog, allowed);
    var ordered := SortByWeight(catalog);
    forall i, j, a, b |
        0 <= i < j < |items| && 0 <= a < |catalog| && 0 <= b < |catalog| &&
        catalog[a].quality == items[i].quality && catalog[b].quality == items[j].quality
      ensures catalog[a].weight <= catalog[b].weight
    {
      assert ordered[i] in multiset(catalog) && ordered[j] in multiset(catalog);
      var p :| 0 <= p < |catalog| && catalog[p] == ordered[i];
      var q :| 0 <= q < |catalog| && catalog[q] == ordered[j];
      assert p == a && q == b;
    }
  }

  /** Only the membership of the legacy allowed list matters, not its order or repetitions. */
  lemma ItemsIgnoreAllowedOrder(catalog: seq<QualityDefinition>, allowed1: seq<Quality>, allowed2: seq<Quality>)
    requires forall q :: q in allowed1 <==> q in allowed2
    ensures CanonicalItems(catalog, allowed1) == CanonicalItems(catalog, allowed2)
  {
  }

  /** An empty legacy list still yields a full-length list, every item disallowed. */
  lemma EmptyAllowedDisallowsAll(catalog: seq<QualityDefinition>)
    ensures |CanonicalItems(catalog, [])| == |catalog|
    ensures forall i :: 0 <= i < |catalog| ==> !CanonicalItems(catalog, [])[i].allowed
  {
  }

  /** For a catalog already in weight order, item `i` describes catalog entry `i`. */
  lemma CanonicalItemsOfSorted(catalog: seq<QualityDefinition>, allowed: seq<Quality>)
    requires SortedByWeight(catalog)
    ensures forall i :: 0 <= i < |catalog| ==>
      CanonicalItems(catalog, allowed)[i] == ProfileItem(catalog[i].quality, catalog[i].quality in allowed)
  {
    SortByWeightOfSorted(catalog);
  }

  /** The example of a three-quality catalog of which only the middle quality was allowed. */
  lemma ThreeQualitiesExample()
    ensures CanonicalItems(
      [QualityDefinition(Quality(1), 1), QualityDefinition(Quality(2), 2), QualityDefinition(Quality(3), 3)],
      [Quality(2)])
      == [ProfileItem(Quality(1), false), ProfileItem(Quality(2), true), ProfileItem(Quality(3), false)]
  {
    var catalog := [QualityDefinition(Quality(1), 1), QualityDefinition(Quality(2), 2), QualityDefinition(Quality(3), 3)];
    CanonicalItemsOfSorted(catalog, [Quality(2)]);
  }
}

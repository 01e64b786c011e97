/** Series as they are stored, told apart and ordered by their labels. */
module SeriesOrder {
  import opened Orders
  import opened Labels
  import opened Chunks

  datatype Series = Series(metric: LabelSet, chunks: seq<Meta>)

  predicate SeriesBefore(a: Series, b: Series) {
    Before(a.metric, b.metric)
  }

  lemma SeriesBeforeOrders()
    ensures StrictWeakOrder(SeriesBefore)
  {
    BeforeOrdersLabelSets();
    forall a, b ensures Asymmetric(SeriesBefore, a, b) {
      assert Asymmetric(Before, a.metric, b.metric);
    }
    forall a, b, c ensures Transitive(SeriesBefore, a, b, c) {
      assert Transitive(Before, a.metric, b.metric, c.metric);
    }
  }

  /** Series that can be told apart by their labels, none of which is an empty label set. */
  ghost predicate Distinct(items: multiset<Series>) {
    && (forall s :: s in items ==> items[s] == 1 && s.metric != [])
    && (forall a, b :: a in items && b in items && a.metric == b.metric ==> a == b)
  }

  lemma LastIsGreatest(out: seq<Series>, s: Series)
    requires out != [] && StrictlySorted(SeriesBefore, out) && s in out
    ensures s == out[|out| - 1] || SeriesBefore(s, out[|out| - 1])
  {
    var i :| 0 <= i < |out| && out[i] == s;
    assert i < |out| - 1 ==> InStrictOrder(SeriesBefore, out, i, |out| - 1);
  }
}

/** The index of a day's log, ordered by labels (buildMetricsIndex in whisperconverter/pass2.go). */
module MetricsIndex {
  import opened Bytes
  import opened Orders
  import opened Labels
  import opened Names

  /** The source keeps labels and position; the name is there to say what they belong to. */
  datatype IndexEntry = IndexEntry(name: Str, labels: LabelSet, pos: nat)

  /** Its labels are those of a name: on these the comparator is an order. */
  type UntaggedEntry = e: IndexEntry | Lists(e.labels, UntaggedLabels(e.name)) ghost witness EmptyNameEntry()

  ghost function EmptyNameEntry(): (e: IndexEntry)
    ensures Lists(e.labels, UntaggedLabels(e.name))
  {
    var ls: LabelSet := [Label(NAME, UNTAGGED)];
    assert Split([]) == [[]];
    var root: seq<Str> := [[]];
    assert root[..0] == [];
    assert NodeLabels(root) == map[];
    IndexEntry([], ls, 0)
  }

  predicate LabelsCompare(a: UntaggedEntry, b: UntaggedEntry) {
    Compare(a.labels, b.labels) == -1
  }

  lemma LabelsCompareOrders()
    ensures StrictWeakOrder(LabelsCompare)
  {
    BeforeOrdersLabelSets();
    forall a: UntaggedEntry, b: UntaggedEntry ensures LabelsCompare(a, b) == Before(a.labels, b.labels) {
      ComparatorIsLabelOrder(a.name, b.name, a.labels, b.labels);
    }
    forall a: UntaggedEntry, b: UntaggedEntry ensures Asymmetric(LabelsCompare, a, b) {
      assert Asymmetric(Before, a.labels, b.labels);
    }
    forall a: UntaggedEntry, b: UntaggedEntry, c: UntaggedEntry ensures Transitive(LabelsCompare, a, b, c) {
      assert Transitive(Before, a.labels, b.labels, c.labels);
    }
  }

  /** Each key of the index once, with its position. */
  ghost predicate Covers(index: seq<UntaggedEntry>, nameIndex: map<Str, nat>) {
    && (forall e :: e in index ==> e.name in nameIndex && e.pos == nameIndex[e.name])
    && (forall name :: name in nameIndex ==> exists e :: e in index && e.name == name)
    && (forall i, j :: 0 <= i < j < |index| ==> index[i].name != index[j].name)
  }

  method BuildMetricsIndex(nameIndex: map<Str, nat>) returns (index: seq<UntaggedEntry>)
    ensures Covers(index, nameIndex)
    ensures forall i, j :: 0 <= i < j < |index| ==> !Before(index[j].labels, index[i].labels)
  {
    hide Lists, UntaggedLabels;
    index := [];
    var rest := nameIndex;
    while rest != map[]
      invariant rest.Keys <= nameIndex.Keys && forall name :: name in rest ==> rest[name] == nameIndex[name]
      invariant forall e :: e in index ==> e.name in nameIndex && e.name !in rest && e.pos == nameIndex[e.name]
      invariant forall name :: name in nameIndex && name !in rest ==> exists e :: e in index && e.name == name
      invariant forall i, j :: 0 <= i < j < |index| ==> index[i].name != index[j].name
      decreases |rest|
    {
      var name :| name in rest;
      var labelsBuilder := new LabelsBuilder();
      var ls := LabelsFromUntaggedName(name, labelsBuilder);
      var entry: UntaggedEntry := IndexEntry(name, ls, rest[name]);
      index := index + [entry];
      assert entry in index;
      rest := rest - {name};
    }
    LabelsCompareOrders();
    ghost var unsorted := index;
    index := Sort(LabelsCompare, index);
    PermutedCovers(index, unsorted, nameIndex);
    SortedByLabels(index);
  }

  /** The comparator sorts by label sets: none comes before one that it follows. */
  lemma SortedByLabels(index: seq<UntaggedEntry>)
    requires Sorted(LabelsCompare, index)
    ensures forall i, j :: 0 <= i < j < |index| ==> !Before(index[j].labels, index[i].labels)
  {
    hide Lists, UntaggedLabels;
    forall i, j | 0 <= i < j < |index| ensures !Before(index[j].labels, index[i].labels) {
      assert InOrder(LabelsCompare, index, i, j);
      ComparatorIsLabelOrder(index[j].name, index[i].name, index[j].labels, index[i].labels);
    }
  }

  lemma PermutedCovers(index: seq<UntaggedEntry>, unsorted: seq<UntaggedEntry>, nameIndex: map<Str, nat>)
    requires multiset(index) == multiset(unsorted) && Covers(unsorted, nameIndex)
    ensures Covers(index, nameIndex)
  {
    hide Lists;
    SameElements(index, unsorted);
    PermutationKeepsDistinct(index, unsorted);
    forall i, j | 0 <= i < j < |index| ensures index[i].name != index[j].name {
      assert index[i] in unsorted && index[j] in unsorted;
    }
  }
}

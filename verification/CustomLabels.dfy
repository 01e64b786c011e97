/** Custom labels, appended to a series' own in pass 2 (whisperconverter/pass2.go). */
module CustomLabels {
  import opened Bytes
  import opened Orders
  import opened Labels
  import opened Names

  /** The custom labels, if any, are appended and all is sorted by name, ties in any order. */
  ghost predicate IsCustomized(ls: LabelSet, custom: LabelSet, r: LabelSet) {
    if custom == [] then r == ls else Sorted(ByName, r) && multiset(r) == multiset(ls + custom)
  }

  method Customize(ls: LabelSet, custom: LabelSet) returns (r: LabelSet)
    ensures IsCustomized(ls, custom, r)
  {
    r := ls;
    if |custom| != 0 {
      ByNameOrders();
      r := Sort(ByName, ls + custom);
    }
  }

  ghost function Customized(ls: LabelSet, custom: LabelSet): (r: LabelSet)
    ensures IsCustomized(ls, custom, r)
  {
    ByNameOrders();
    SortingExists(ByName, ls + custom);
    if custom == [] then ls
    else
      var r :| Sorted(ByName, r) && multiset(r) == multiset(ls + custom);
      r
  }

  /** Every label has its own name, and none is empty. */
  ghost predicate OwnNames(ls: LabelSet) {
    && (forall l :: l in ls ==> l.name != [])
    && (forall i, j :: 0 <= i < j < |ls| ==> ls[i].name != ls[j].name)
  }

  lemma {:induction false} ValidNamesAscend(ls: LabelSet, i: nat, j: nat)
    requires ValidNames(ls) && i < j < |ls|
    ensures Less(ls[i].name, ls[j].name)
    decreases j
  {
    assert NameInPlace(ls, j);
    if i < j - 1 {
      ValidNamesAscend(ls, i, j - 1);
      LessTransitive(ls[i].name, ls[j - 1].name, ls[j].name);
    }
  }

  lemma ValidNamesAreOwn(ls: LabelSet)
    requires ValidNames(ls)
    ensures StrictlySorted(ByName, ls) && OwnNames(ls)
  {
    LessOrdersStrings();
    forall i, j | 0 <= i < j < |ls| ensures InStrictOrder(ByName, ls, i, j) && ls[i].name != ls[j].name {
      ValidNamesAscend(ls, i, j);
      assert Asymmetric(Less, ls[i].name, ls[j].name);
    }
    forall i | 0 <= i < |ls| ensures ls[i].name != [] {
      assert NameInPlace(ls, i);
    }
  }

  /** Valid means in the order of names, no name empty or repeated. */
  lemma ValidNamesIff(ls: LabelSet)
    ensures ValidNames(ls) <==>
      && (forall i :: 0 <= i < |ls| ==> ls[i].name != [])
      && (forall i, j :: 0 <= i < j < |ls| ==> Less(ls[i].name, ls[j].name))
  {
    if ValidNames(ls) {
      forall i, j | 0 <= i < j < |ls| ensures Less(ls[i].name, ls[j].name) {
        ValidNamesAscend(ls, i, j);
      }
      forall i | 0 <= i < |ls| ensures ls[i].name != [] {
        assert NameInPlace(ls, i);
      }
    }
  }

  /** Sorting yields valid names exactly if they were own names. */
  lemma SortedNamesAreValid(ls: LabelSet, r: LabelSet)
    requires Sorted(ByName, r) && multiset(r) == multiset(ls)
    ensures ValidNames(r) <==> OwnNames(ls)
    ensures ValidNames(r) ==> StrictlySorted(ByName, r)
  {
    SameElements(r, ls);
    if ValidNames(r) {
      ValidNamesAreOwn(r);
      PermutationKeepsDistinct(ls, r);
      forall i, j | 0 <= i < j < |ls| ensures ls[i].name != ls[j].name {
        assert ls[i] in r && ls[j] in r;
      }
    }
    if OwnNames(ls) {
      DistinctNamesSort(ls, r);
      forall i | 0 <= i < |r| ensures NameInPlace(r, i) {
        assert r[i] in ls;
        if i > 0 {
          assert InStrictOrder(ByName, r, i - 1, i);
        }
      }
    }
  }

  /** Which way ties are sorted does not matter: labels with ties are refused. */
  lemma CustomizedOnce(ls: LabelSet, custom: LabelSet, a: LabelSet, b: LabelSet)
    requires IsCustomized(ls, custom, a) && IsCustomized(ls, custom, b)
    ensures ValidNames(a) <==> ValidNames(b)
    ensures ValidNames(a) ==> a == b
  {
    if custom != [] {
      SortedNamesAreValid(ls + custom, a);
      SortedNamesAreValid(ls + custom, b);
      if ValidNames(a) {
        ByNameOrders();
        SameElements(a, b);
        StrictlySortedUnique(ByName, a, b);
      }
    }
  }

  /** The custom labels go with the others: no name twice, none empty. */
  ghost predicate CustomFits(ls: LabelSet, custom: LabelSet) {
    custom == [] || OwnNames(ls + custom)
  }

  lemma CustomizedIsValidIff(ls: LabelSet, custom: LabelSet)
    requires ValidNames(ls)
    ensures ValidNames(Customized(ls, custom)) <==> CustomFits(ls, custom)
    ensures ls != [] ==> Customized(ls, custom) != []
  {
    hide ValidNames, OwnNames;
    var r := Customized(ls, custom);
    if custom != [] {
      SortedNamesAreValid(ls + custom, r);
      assert |r| == |multiset(r)| == |multiset(ls + custom)|;
    }
  }

  lemma SameRest<T>(a: multiset<T>, b: multiset<T>, rest: multiset<T>)
    requires a + rest == b + rest
    ensures a == b
  {
    forall x ensures a[x] == b[x] {
      assert (a + rest)[x] == (b + rest)[x];
    }
  }

  /** Custom labels do not make different labels equal. */
  lemma CustomizedStaysDistinct(a: LabelSet, b: LabelSet, custom: LabelSet)
    requires ValidNames(a) && ValidNames(b) && a != b
    ensures Customized(a, custom) != Customized(b, custom)
  {
    hide ValidNames;
    if custom != [] && Customized(a, custom) == Customized(b, custom) {
      var rest := multiset(custom);
      assert multiset(a) + rest == multiset(a + custom) == multiset(b + custom) == multiset(b) + rest;
      SameRest(multiset(a), multiset(b), rest);
      SameElements(a, b);
      ValidNamesAreOwn(a);
      ValidNamesAreOwn(b);
      ByNameOrders();
      StrictlySortedUnique(ByName, a, b);
    }
  }
}

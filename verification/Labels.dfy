/** Label sets and the order Prometheus' labels.Compare puts them in. */
module Labels {
  import opened Bytes
  import opened Orders

  datatype Label = Label(name: Str, value: Str)

  type LabelSet = seq<Label>

  /**
   * Negative, zero or positive as `a` sorts before, with or after `b`. Where one is a
   * prefix of the other the result is the difference of the lengths, not its sign.
   */
  function Compare(a: LabelSet, b: LabelSet): int {
    if a == [] || b == [] then |a| - |b|
    else if a[0].name != b[0].name then if Less(a[0].name, b[0].name) then -1 else 1
    else if a[0].value != b[0].value then if Less(a[0].value, b[0].value) then -1 else 1
    else Compare(a[1..], b[1..])
  }

  predicate Before(a: LabelSet, b: LabelSet) {
    Compare(a, b) < 0
  }

  /** Names decide before values. */
  predicate LabelBefore(a: Label, b: Label) {
    Less(a.name, b.name) || (a.name == b.name && Less(a.value, b.value))
  }

  /** The label sets agree up to `k`, and there the first is shorter or has the smaller label. */
  ghost predicate SmallerLabelAt(a: LabelSet, b: LabelSet, k: nat) {
    k <= |a| && k < |b| && a[..k] == b[..k] && (k < |a| ==> LabelBefore(a[k], b[k]))
  }

  /** At the first difference the smaller label decides, and a proper prefix comes first. */
  lemma {:induction false} BeforeIff(a: LabelSet, b: LabelSet)
    ensures Before(a, b) <==> exists k :: SmallerLabelAt(a, b, k)
  {
    forall k: nat | k > 0 && SmallerLabelAt(a, b, k)
      ensures a != [] && a[0] == b[0] && SmallerLabelAt(a[1..], b[1..], k - 1)
    {
      assert a[..k][0] == a[0] && b[..k][0] == b[0];
      assert a[1..][..k - 1] == a[..k][1..] && b[1..][..k - 1] == b[..k][1..];
    }
    if a != [] && b != [] {
      NotBelowItself(a[0].name);
      NotBelowItself(a[0].value);
    }
    assert Before(a, b) && (a == [] || a[0] != b[0]) ==> SmallerLabelAt(a, b, 0);
    if a != [] && b != [] && a[0] == b[0] {
      BeforeIff(a[1..], b[1..]);
      if k: nat :| SmallerLabelAt(a[1..], b[1..], k) {
        assert a[..k + 1] == [a[0]] + a[1..][..k] && b[..k + 1] == [b[0]] + b[1..][..k];
        assert SmallerLabelAt(a, b, k + 1);
      }
    }
  }

  lemma NotBelowItself(s: Str)
    ensures !Less(s, s)
  {
    if Less(s, s) {
      LessAsymmetric(s, s);
    }
  }

  lemma {:induction false} CompareIsZeroOnlyForEqual(a: LabelSet, b: LabelSet)
    ensures Compare(a, b) == 0 <==> a == b
  {
    if a != [] && b != [] && a[0] == b[0] {
      CompareIsZeroOnlyForEqual(a[1..], b[1..]);
      assert a == [a[0]] + a[1..] && b == [b[0]] + b[1..];
    }
  }

  lemma {:induction false} CompareOpposite(a: LabelSet, b: LabelSet)
    ensures Compare(a, b) < 0 <==> Compare(b, a) > 0
  {
    if a != [] && b != [] {
      var x, y := a[0], b[0];
      LessTotal(x.name, y.name);
      LessTotal(x.value, y.value);
      if Less(x.name, y.name) {
        LessAsymmetric(x.name, y.name);
      }
      if Less(x.value, y.value) {
        LessAsymmetric(x.value, y.value);
      }
      if x == y {
        CompareOpposite(a[1..], b[1..]);
      }
    }
  }

  lemma {:induction false} BeforeTransitive(a: LabelSet, b: LabelSet, c: LabelSet)
    requires Before(a, b) && Before(b, c)
    ensures Before(a, c)
  {
    if a != [] {
      var x, y, z := a[0], b[0], c[0];
      if Less(x.name, y.name) && Less(y.name, z.name) {
        LessTransitive(x.name, y.name, z.name);
        LessAsymmetric(x.name, z.name);
      } else if x.name == y.name == z.name {
        if Less(x.value, y.value) && Less(y.value, z.value) {
          LessTransitive(x.value, y.value, z.value);
          LessAsymmetric(x.value, z.value);
        } else if x.value == y.value == z.value {
          BeforeTransitive(a[1..], b[1..], c[1..]);
        }
      }
    }
  }

  lemma BeforeOrdersLabelSets()
    ensures StrictWeakOrder(Before) && NoTies(Before)
  {
    forall a, b ensures Asymmetric(Before, a, b) && Comparable(Before, a, b) {
      CompareOpposite(a, b);
      CompareOpposite(b, a);
      CompareIsZeroOnlyForEqual(a, b);
    }
    forall a, b, c ensures Transitive(Before, a, b, c) {
      assert Comparable(Before, a, b) && Comparable(Before, b, c);
      if Before(a, b) && Before(b, c) {
        BeforeTransitive(a, b, c);
        CompareOpposite(a, c);
      } else if Before(a, c) {
        CompareOpposite(a, c);
      }
    }
  }

  lemma OnlyEmptyIsNotAboveEmpty(a: LabelSet)
    ensures Before([], a) <==> a != []
  {
  }

  lemma NothingIsBeforeEmpty(a: LabelSet)
    ensures !Before(a, [])
  {
  }

  predicate NameInPlace(metric: LabelSet, i: nat)
    requires i < |metric|
  {
    Less(if i == 0 then [] else metric[i - 1].name, metric[i].name)
  }

  /** Label names are non-empty and strictly increasing. */
  predicate ValidNames(metric: LabelSet) {
    forall i :: 0 <= i < |metric| ==> NameInPlace(metric, i)
  }

  /** All strings occurring in a label set. */
  function Strings(ls: LabelSet): set<Str> {
    (set l | l in ls :: l.name) + (set l | l in ls :: l.value)
  }

  lemma StringsAre(ls: LabelSet, s: Str)
    ensures s in Strings(ls) <==> exists l :: l in ls && (s == l.name || s == l.value)
  {
  }

  lemma NoStrings()
    ensures Strings([]) == {}
  {
  }

  lemma OneMoreLabel(ls: LabelSet, i: nat)
    requires i < |ls|
    ensures Strings(ls[..i + 1]) == Strings(ls[..i]) + {ls[i].name, ls[i].value}
  {
    assert ls[..i + 1] == ls[..i] + [ls[i]];
  }
}

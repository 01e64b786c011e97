/** Dotted metric names as label sets (LabelsFromUntaggedName in pkg/graphite/convert/tags.go). */
module Names {
  import opened Bytes
  import opened Orders
  import opened Labels

  const DOT: byte := 0x2E

  const NAME: Str := [0x5F, 0x5F, 0x6E, 0x61, 0x6D, 0x65, 0x5F, 0x5F]   // "__name__"

  /** "graphite_untagged" */
  const UNTAGGED: Str := [0x67, 0x72, 0x61, 0x70, 0x68, 0x69, 0x74, 0x65, 0x5F,
                          0x75, 0x6E, 0x74, 0x61, 0x67, 0x67, 0x65, 0x64]

  // ---------- Nodes of a name ----------

  /** strings.Split at the dots. */
  function Split(name: Str): (nodes: seq<Str>)
    ensures nodes != []
  {
    if name == [] then [[]]
    else
      var n := |name| - 1;
      var before := Split(name[..n]);
      if name[n] == DOT then before + [[]]
      else before[..|before| - 1] + [before[|before| - 1] + [name[n]]]
  }

  function JoinDots(nodes: seq<Str>): Str {
    if nodes == [] then []
    else if |nodes| == 1 then nodes[0]
    else JoinDots(nodes[..|nodes| - 1]) + [DOT] + nodes[|nodes| - 1]
  }

  lemma {:induction false} SplitJoins(name: Str)
    ensures JoinDots(Split(name)) == name
  {
    if name != [] {
      var n := |name| - 1;
      SplitJoins(name[..n]);
      var before := Split(name[..n]);
      var m := |before| - 1;
      assert name == name[..n] + [name[n]];
      var nodes := Split(name);
      if name[n] == DOT {
        assert nodes[..|nodes| - 1] == before;
      } else {
        assert nodes[..m] == before[..m];
        if m > 0 {
          assert JoinDots(nodes) == JoinDots(before[..m]) + [DOT] + (before[m] + [name[n]]);
        }
      }
    }
  }

  /** No node has a dot in it. */
  ghost predicate WithoutDots(nodes: seq<Str>) {
    forall i, k :: 0 <= i < |nodes| && 0 <= k < |nodes[i]| ==> nodes[i][k] != 0x2E
  }

  lemma {:induction false} NodesHaveNoDots(name: Str)
    ensures WithoutDots(Split(name))
  {
    if name != [] {
      NodesHaveNoDots(name[..|name| - 1]);
    }
  }

  lemma JoinAppend(nodes: seq<Str>, last: Str)
    ensures JoinDots(nodes + [last]) == if nodes == [] then last else JoinDots(nodes) + [DOT] + last
  {
    assert (nodes + [last])[..|nodes|] == nodes;
  }

  /** The name without its last byte: the last node is one shorter or, if it is empty, gone with its dot. */
  lemma LastByte(before: seq<Str>, last: Str)
    requires before != [] || last != []
    ensures var name := JoinDots(before + [last]);
      name != [] &&
      if last == [] then name == JoinDots(before) + [DOT]
      else name == JoinDots(before + [last[..|last| - 1]]) + [last[|last| - 1]]
  {
    hide JoinDots;
    JoinAppend(before, last);
    if last == [] {
      assert JoinDots(before) + [DOT] + last == JoinDots(before) + [DOT];
    } else {
      var n := |last| - 1;
      JoinAppend(before, last[..n]);
      assert last == last[..n] + [last[n]];
      assert JoinDots(before) + [DOT] + last == JoinDots(before) + [DOT] + last[..n] + [last[n]];
    }
  }

  /** The nodes of a name are the one list of strings without dots that gives the name when joined with dots. */
  lemma {:induction false} SplitIsUnique(nodes: seq<Str>)
    requires nodes != [] && WithoutDots(nodes)
    ensures Split(JoinDots(nodes)) == nodes
    decreases |JoinDots(nodes)|
  {
    hide JoinDots;
    var before, last := nodes[..|nodes| - 1], nodes[|nodes| - 1];
    assert nodes == before + [last];
    if before == [] && last == [] {
      JoinAppend([], []);
      assert [] + [last] == [last];
    } else {
      LastByte(before, last);
      var name := JoinDots(nodes);
      if last == [] {
        assert name[..|name| - 1] == JoinDots(before);
        SplitIsUnique(before);
      } else {
        var n := |last| - 1;
        var shorter := before + [last[..n]];
        assert name[..|name| - 1] == JoinDots(shorter);
        StillWithoutDots(nodes);
        SplitIsUnique(shorter);
        assert last == last[..n] + [last[n]];
      }
    }
  }

  lemma StillWithoutDots(nodes: seq<Str>)
    requires nodes != [] && WithoutDots(nodes) && nodes[|nodes| - 1] != []
    ensures var last := nodes[|nodes| - 1];
      WithoutDots(nodes[..|nodes| - 1] + [last[..|last| - 1]]) && last[|last| - 1] != DOT
  {
  }

  /** The `i`-th node; beyond the last there are only empty ones. */
  function Node(nodes: seq<Str>, i: nat): Str {
    if i < |nodes| then nodes[i] else []
  }

  /** Without the empty nodes at the end. */
  function Trim(nodes: seq<Str>): seq<Str> {
    if nodes == [] || nodes[|nodes| - 1] != [] then nodes else Trim(nodes[..|nodes| - 1])
  }

  lemma {:induction false} TrimKeepsNodes(nodes: seq<Str>, i: nat)
    ensures Node(Trim(nodes), i) == Node(nodes, i)
    ensures |Trim(nodes)| <= |nodes|
  {
    if nodes != [] && nodes[|nodes| - 1] == [] {
      TrimKeepsNodes(nodes[..|nodes| - 1], i);
    }
  }

  lemma {:induction false} TrimEndsInNode(nodes: seq<Str>)
    ensures Trim(nodes) != [] ==> Trim(nodes)[|Trim(nodes)| - 1] != []
  {
    if nodes != [] && nodes[|nodes| - 1] == [] {
      TrimEndsInNode(nodes[..|nodes| - 1]);
    }
  }

  /** Trimmed node lists are equal exactly if they agree on every node. */
  lemma SameNodesSameTrim(a: seq<Str>, b: seq<Str>)
    ensures Trim(a) == Trim(b) <==> forall i :: Node(a, i) == Node(b, i)
  {
    forall i ensures Node(Trim(a), i) == Node(a, i) && Node(Trim(b), i) == Node(b, i) {
      TrimKeepsNodes(a, i);
      TrimKeepsNodes(b, i);
    }
    if Trim(a) == Trim(b) {
      forall i ensures Node(a, i) == Node(b, i) {
        assert Node(Trim(a), i) == Node(a, i);
      }
    }
    if forall i :: Node(a, i) == Node(b, i) {
      TrimEndsInNode(a);
      TrimEndsInNode(b);
      var x, y := Trim(a), Trim(b);
      assert |y| == 0 || Node(x, |y| - 1) == Node(a, |y| - 1) == Node(y, |y| - 1);
      assert |x| == 0 || Node(y, |x| - 1) == Node(b, |x| - 1) == Node(x, |x| - 1);
      assert |x| == |y|;
      forall i | 0 <= i < |x| ensures x[i] == y[i] {
        assert Node(x, i) == Node(a, i) == Node(b, i) == Node(y, i);
      }
    }
  }

  // ---------- Label names of nodes ----------

  function Digits(n: nat): (d: Str)
    ensures |d| >= 1
  {
    if n < 10 then [0x30 + n] else Digits(n / 10) + [0x30 + n % 10]
  }

  /** fmt's %03d. */
  function ThreeDigits(n: nat): Str {
    if n < 10 then [0x30, 0x30] + Digits(n) else if n < 100 then [0x30] + Digits(n) else Digits(n)
  }

  /** "__n%03d__" */
  function NodeName(i: nat): Str {
    [0x5F, 0x5F, 0x6E] + ThreeDigits(i) + [0x5F, 0x5F]
  }

  function NumberOf(d: Str): int {
    if d == [] then 0 else NumberOf(d[..|d| - 1]) * 10 + (d[|d| - 1] as int - 0x30)
  }

  lemma {:induction false} DigitsGiveNumber(n: nat)
    ensures NumberOf(Digits(n)) == n
    ensures forall k :: 0 <= k < |Digits(n)| ==> 0x30 <= Digits(n)[k] <= 0x39
  {
    if n < 10 {
      assert Digits(n)[..0] == [];
    } else {
      DigitsGiveNumber(n / 10);
      assert Digits(n)[..|Digits(n)| - 1] == Digits(n / 10);
    }
  }

  lemma {:induction false} LeadingZero(d: Str)
    ensures NumberOf([0x30] + d) == NumberOf(d)
  {
    var z := [0x30] + d;
    if d == [] {
      assert z[..0] == [];
    } else {
      LeadingZero(d[..|d| - 1]);
      assert z[..|z| - 1] == [0x30] + d[..|d| - 1];
    }
  }

  lemma ThreeDigitsGiveNumber(n: nat)
    ensures NumberOf(ThreeDigits(n)) == n
    ensures ThreeDigits(n) != [] && 0x30 <= ThreeDigits(n)[0] <= 0x39
  {
    DigitsGiveNumber(n);
    LeadingZero(Digits(n));
    LeadingZero([0x30] + Digits(n));
    assert [0x30, 0x30] + Digits(n) == [0x30] + ([0x30] + Digits(n));
  }

  /** At least three digits, which give the number; more than three do not begin with a zero. */
  ghost predicate IsNumber(d: Str, n: nat) {
    && |d| >= 3 && NumberOf(d) == n && (|d| > 3 ==> d[0] != 0x30)
    && forall k :: 0 <= k < |d| ==> 0x30 <= d[k] <= 0x39
  }

  lemma ThreeDigitsAre(n: nat)
    ensures IsNumber(ThreeDigits(n), n)
  {
    hide NumberOf, Digits;
    ThreeDigitsGiveNumber(n);
    DigitsGiveNumber(n);
    ManyDigits(n);
  }

  /** "__n", the number with at least three digits, and "__". */
  lemma NodeNameIs(i: nat)
    ensures var name := NodeName(i);
      && |name| >= 8 && name[..3] == [0x5F, 0x5F, 0x6E] && name[|name| - 2..] == [0x5F, 0x5F]
      && IsNumber(name[3..|name| - 2], i)
    ensures i < 1000 ==>
      NodeName(i) == [0x5F, 0x5F, 0x6E, 0x30 + i / 100, 0x30 + i / 10 % 10, 0x30 + i % 10, 0x5F, 0x5F]
  {
    hide NumberOf, ThreeDigits;
    ThreeDigitsAre(i);
    assert NodeName(i)[3..|NodeName(i)| - 2] == ThreeDigits(i);
    if i < 1000 {
      ThreeDigitsBelowThousand(i);
    }
  }

  lemma {:induction false} ManyDigits(n: nat)
    ensures n >= 10 ==> |Digits(n)| >= 2
    ensures n >= 100 ==> |Digits(n)| >= 3
    ensures n > 0 ==> Digits(n)[0] != 0x30
    ensures n < 1000 ==> |Digits(n)| <= 3
    ensures n < 100 ==> |Digits(n)| <= 2
    ensures n < 10 ==> |Digits(n)| == 1
  {
    if n >= 10 {
      ManyDigits(n / 10);
    }
  }

  lemma NodeNamesDiffer(i: nat, j: nat)
    ensures NodeName(i) == NodeName(j) ==> i == j
  {
    if NodeName(i) == NodeName(j) {
      ThreeDigitsGiveNumber(i);
      ThreeDigitsGiveNumber(j);
      assert ThreeDigits(i) == NodeName(i)[3..|NodeName(i)| - 2];
      assert ThreeDigits(j) == NodeName(j)[3..|NodeName(j)| - 2];
    }
  }

  /** Every node's label sorts before `__name__`. */
  lemma NodeNameBelowName(i: nat)
    ensures Less(NodeName(i), NAME) && NodeName(i) != NAME
  {
    ThreeDigitsGiveNumber(i);
    var p: Str := [0x5F, 0x5F, 0x6E];
    assert NodeName(i) == p + (ThreeDigits(i) + [0x5F, 0x5F]);
    assert NAME == p + NAME[3..];
    LessAfterCommonPrefix(p, ThreeDigits(i) + [0x5F, 0x5F], NAME[3..]);
  }

  // ---------- Labels ----------

  /** The labels of a name: one per non-empty node, and the metric name all untagged series share. */
  function NodeLabels(nodes: seq<Str>): map<Str, Str> {
    if nodes == [] then map[]
    else
      var n := |nodes| - 1;
      if nodes[n] == [] then NodeLabels(nodes[..n]) - {NodeName(n)} else NodeLabels(nodes[..n])[NodeName(n) := nodes[n]]
  }

  function UntaggedLabels(name: Str): map<Str, Str> {
    NodeLabels(Split(name))[NAME := UNTAGGED]
  }

  predicate ByName(a: Label, b: Label) {
    Less(a.name, b.name)
  }

  /** `ls` lists the labels by name, each name once. */
  ghost predicate Lists(ls: LabelSet, labels: map<Str, Str>) {
    && StrictlySorted(ByName, ls)
    && (forall l :: l in ls <==> l.name in labels && labels[l.name] == l.value)
  }

  lemma ByNameOrders()
    ensures StrictWeakOrder(ByName)
  {
    LessOrdersStrings();
    forall a, b ensures Asymmetric(ByName, a, b) {
      assert Asymmetric(Less, a.name, b.name);
    }
    forall a, b, c ensures Transitive(ByName, a, b, c) {
      assert Transitive(Less, a.name, b.name, c.name);
    }
  }

  /** labels.Builder, reset to no labels: setting an empty value removes the label. */
  class LabelsBuilder {
    var labels: map<Str, Str>

    constructor ()
      ensures labels == map[]
    {
      labels := map[];
    }

    method Set(name: Str, value: Str)
      modifies this
      ensures labels == if value == [] then old(labels) - {name} else old(labels)[name := value]
    {
      labels := if value == [] then labels - {name} else labels[name := value];
    }

    method Labels() returns (ls: LabelSet)
      ensures Lists(ls, labels)
    {
      ByNameOrders();
      var rest := labels;
      var all: LabelSet := [];
      while rest != map[]
        invariant rest.Keys <= labels.Keys && forall k :: k in rest ==> rest[k] == labels[k]
        invariant forall l :: l in all <==> l.name in labels && l.name !in rest && l.value == labels[l.name]
        invariant forall i, j :: 0 <= i < j < |all| ==> all[i].name != all[j].name
        decreases |rest|
      {
        var k :| k in rest;
        all := all + [Label(k, rest[k])];
        rest := rest - {k};
      }
      ls := Sort(ByName, all);
      DistinctNamesSort(all, ls);
    }
  }

  lemma DistinctNamesSort(all: LabelSet, ls: LabelSet)
    requires Sorted(ByName, ls) && multiset(ls) == multiset(all)
    requires forall i, j :: 0 <= i < j < |all| ==> all[i].name != all[j].name
    ensures StrictlySorted(ByName, ls) && forall l :: l in ls <==> l in all
  {
    LessOrdersStrings();
    SameElements(ls, all);
    PermutationKeepsDistinct(ls, all);
    forall i, j | 0 <= i < j < |ls| ensures InStrictOrder(ByName, ls, i, j) {
      assert InOrder(ByName, ls, i, j) && Comparable(Less, ls[i].name, ls[j].name);
      assert ls[i] in all && ls[j] in all;
    }
  }

  /** The metric name "graphite_untagged", and before it each non-empty node under its number. */
  ghost predicate AreLabelsOf(ls: LabelSet, name: Str) {
    && ls != []
    && ls[|ls| - 1].name == [0x5F, 0x5F, 0x6E, 0x61, 0x6D, 0x65, 0x5F, 0x5F]
    && ls[|ls| - 1].value == [0x67, 0x72, 0x61, 0x70, 0x68, 0x69, 0x74, 0x65, 0x5F,
                              0x75, 0x6E, 0x74, 0x61, 0x67, 0x67, 0x65, 0x64]
    && (forall l :: l in ls <==> l == ls[|ls| - 1] || IsLabelOfSome(l, Split(name)))
    && (forall i, j :: 0 <= i < j < |ls| ==> Less(ls[i].name, ls[j].name))
  }

  /** "__n000__" and so on, by the number of the node. */
  ghost predicate IsLabelOfNode(l: Label, i: nat, node: Str) {
    node != [] && l == Label(NodeName(i), node)
  }

  ghost predicate IsLabelOfSome(l: Label, nodes: seq<Str>) {
    exists i :: 0 <= i < |nodes| && IsLabelOfNode(l, i, nodes[i])
  }

  lemma LabelsOfName(ls: LabelSet, name: Str)
    requires Lists(ls, UntaggedLabels(name))
    ensures AreLabelsOf(ls, name)
  {
    hide Less, NodeName, NodeLabels, Split;
    var nodes := Split(name);
    NameComesLast(nodes, ls);
    forall l ensures l in ls <==> l == ls[|ls| - 1] || IsLabelOfSome(l, nodes) {
      if l in ls && l.name != NAME {
        var i := LabelOfNode(nodes, ls, l);
        assert IsLabelOfNode(l, i, nodes[i]);
      }
      if i :| 0 <= i < |nodes| && IsLabelOfNode(l, i, nodes[i]) {
        NodeIsLabelled(nodes, ls, i);
      }
    }
    forall i, j | 0 <= i < j < |ls| ensures Less(ls[i].name, ls[j].name) {
      assert InStrictOrder(ByName, ls, i, j);
    }
  }

  method LabelsFromUntaggedName(name: Str, builder: LabelsBuilder) returns (ls: LabelSet)
    modifies builder
    ensures Lists(ls, UntaggedLabels(name)) && AreLabelsOf(ls, name)
  {
    builder.labels := map[];
    var nodes := Split(name);
    for i := 0 to |nodes|
      invariant builder.labels == NodeLabels(nodes[..i])
    {
      assert nodes[..i + 1][..i] == nodes[..i];
      builder.Set(NodeName(i), nodes[i]);
    }
    assert nodes[..|nodes|] == nodes;
    builder.Set(NAME, UNTAGGED);
    ls := builder.Labels();
    LabelsOfName(ls, name);
  }

  // ---------- Which names share labels ----------

  lemma {:induction false} NodeLabelsLookup(nodes: seq<Str>, i: nat)
    ensures NodeName(i) in NodeLabels(nodes) <==> Node(nodes, i) != []
    ensures NodeName(i) in NodeLabels(nodes) ==> NodeLabels(nodes)[NodeName(i)] == Node(nodes, i)
  {
    hide NodeName;
    if nodes != [] {
      var n := |nodes| - 1;
      NodeLabelsLookup(nodes[..n], i);
      NodeNamesDiffer(i, n);
    }
  }

  lemma {:induction false} NodeLabelsKeys(nodes: seq<Str>, key: Str)
    requires key in NodeLabels(nodes)
    ensures exists i :: 0 <= i < |nodes| && key == NodeName(i)
  {
    var n := |nodes| - 1;
    if key != NodeName(n) || nodes[n] == [] {
      NodeLabelsKeys(nodes[..n], key);
    }
  }

  lemma ListsUnique(a: LabelSet, b: LabelSet, labels: map<Str, Str>)
    requires Lists(a, labels) && Lists(b, labels)
    ensures a == b
  {
    ByNameOrders();
    StrictlySortedUnique(ByName, a, b);
  }

  /** Two names get the same labels exactly if they differ in empty nodes at the end only. */
  lemma SameLabelsIff(a: Str, b: Str, la: LabelSet, lb: LabelSet)
    requires Lists(la, UntaggedLabels(a)) && Lists(lb, UntaggedLabels(b))
    ensures la == lb <==> Trim(Split(a)) == Trim(Split(b))
  {
    var x, y := Split(a), Split(b);
    SameNodesSameTrim(x, y);
    if la == lb {
      forall i ensures Node(x, i) == Node(y, i) {
        NodeLabelsLookup(x, i);
        NodeLabelsLookup(y, i);
        NodeNameBelowName(i);
        if Node(x, i) != [] {
          assert Label(NodeName(i), Node(x, i)) in la;
        }
        if Node(y, i) != [] {
          assert Label(NodeName(i), Node(y, i)) in lb;
        }
      }
    }
    if forall i :: Node(x, i) == Node(y, i) {
      SameNodesSameLabels(x, y);
      ListsUnique(la, lb, UntaggedLabels(a));
    }
  }

  lemma SameNodesSameLabels(x: seq<Str>, y: seq<Str>)
    requires forall i :: Node(x, i) == Node(y, i)
    ensures NodeLabels(x) == NodeLabels(y)
  {
    forall key ensures key in NodeLabels(x) <==> key in NodeLabels(y) {
      if key in NodeLabels(x) {
        NodeLabelsKeys(x, key);
        var i :| 0 <= i < |x| && key == NodeName(i);
        NodeLabelsLookup(x, i);
        NodeLabelsLookup(y, i);
        assert Node(x, i) == Node(y, i);
      }
      if key in NodeLabels(y) {
        NodeLabelsKeys(y, key);
        var i :| 0 <= i < |y| && key == NodeName(i);
        NodeLabelsLookup(x, i);
        NodeLabelsLookup(y, i);
        assert Node(x, i) == Node(y, i);
      }
    }
    forall key | key in NodeLabels(x) ensures NodeLabels(x)[key] == NodeLabels(y)[key] {
      NodeLabelsKeys(x, key);
      var i :| 0 <= i < |x| && key == NodeName(i);
      NodeLabelsLookup(x, i);
      NodeLabelsLookup(y, i);
      assert Node(x, i) == Node(y, i);
    }
  }

  /** A name whose last node is not empty; these can be recovered from their labels. */
  predicate Proper(name: Str) {
    var nodes := Split(name);
    nodes[|nodes| - 1] != []
  }

  lemma ProperNamesHaveOwnLabels(a: Str, b: Str, la: LabelSet, lb: LabelSet)
    requires Proper(a) && Proper(b)
    requires Lists(la, UntaggedLabels(a)) && Lists(lb, UntaggedLabels(b))
    ensures la == lb <==> a == b
  {
    SameLabelsIff(a, b, la, lb);
    SplitJoins(a);
    SplitJoins(b);
  }

  /** "a" and "a." get the same labels. */
  lemma TrailingDotIsLost(la: LabelSet, lb: LabelSet)
    requires Lists(la, UntaggedLabels([0x61])) && Lists(lb, UntaggedLabels([0x61, DOT]))
    ensures la == lb
  {
    hide Lists, NodeLabels, NodeName;
    var a: Str := [0x61];
    var b: Str := [0x61, DOT];
    assert Split([]) == [[]];
    assert a[..0] == [] && b[..1] == a;
    var before := Split(a[..0]);
    assert before == [[]] && before[0] + [a[0]] == [0x61];
    assert Split(a) == before[..0] + [before[0] + [a[0]]];
    assert Split(b) == [[0x61], []];
    assert Split(b)[..1] == [[0x61]];
    SameLabelsIff(a, b, la, lb);
  }

  // ---------- The comparator of pass 2 ----------

  /** A label is the shared metric name or that of some node. */
  lemma LabelOfNode(nodes: seq<Str>, ls: LabelSet, l: Label) returns (i: nat)
    requires Lists(ls, NodeLabels(nodes)[NAME := UNTAGGED]) && l in ls && l.name != NAME
    ensures i < |nodes| && Node(nodes, i) != [] && l == Label(NodeName(i), Node(nodes, i))
  {
    NodeLabelsKeys(nodes, l.name);
    i :| 0 <= i < |nodes| && l.name == NodeName(i);
    NodeLabelsLookup(nodes, i);
  }

  lemma NodeIsLabelled(nodes: seq<Str>, ls: LabelSet, i: nat)
    requires Lists(ls, NodeLabels(nodes)[NAME := UNTAGGED]) && Node(nodes, i) != []
    ensures Label(NodeName(i), Node(nodes, i)) in ls
  {
    NodeLabelsLookup(nodes, i);
    NodeNameBelowName(i);
  }

  /** The shared metric name sorts last. */
  lemma NameComesLast(nodes: seq<Str>, ls: LabelSet)
    requires Lists(ls, NodeLabels(nodes)[NAME := UNTAGGED])
    ensures ls != [] && ls[|ls| - 1] == Label(NAME, UNTAGGED)
    ensures forall k :: 0 <= k < |ls| - 1 ==> ls[k].name != NAME
  {
    hide Less, NodeName, NodeLabels;
    LessOrdersStrings();
    assert Label(NAME, UNTAGGED) in ls;
    var k :| 0 <= k < |ls| && ls[k] == Label(NAME, UNTAGGED);
    if k < |ls| - 1 {
      var l := ls[|ls| - 1];
      assert InStrictOrder(ByName, ls, k, |ls| - 1) && Asymmetric(Less, NAME, l.name);
      if l.name != NAME {
        var i := LabelOfNode(nodes, ls, l);
        NodeNameBelowName(i);
      }
    }
    forall j | 0 <= j < |ls| - 1 ensures ls[j].name != NAME {
      assert InStrictOrder(ByName, ls, j, |ls| - 1) && Asymmetric(Less, NAME, NAME);
    }
  }

  /**
   * Pass 2 sorts by "labels.Compare is -1". That misses exactly the label sets that are proper
   * prefixes of others by more than one label, for which Compare answers less than -1.
   */
  lemma {:induction false} ComparatorMissesPrefixes(a: LabelSet, b: LabelSet)
    ensures Before(a, b) && Compare(a, b) != -1 <==> a <= b && |b| - |a| >= 2
  {
    if a != [] && b != [] {
      if a[0] == b[0] {
        assert a == [a[0]] + a[1..] && b == [b[0]] + b[1..];
        ComparatorMissesPrefixes(a[1..], b[1..]);
        assert a <= b <==> a[1..] <= b[1..];
      }
    }
  }

  /** Labels of names are never prefixes of each other, so there the comparator is the order of label sets. */
  lemma ComparatorIsLabelOrder(a: Str, b: Str, la: LabelSet, lb: LabelSet)
    requires Lists(la, UntaggedLabels(a)) && Lists(lb, UntaggedLabels(b))
    ensures Compare(la, lb) == -1 <==> Before(la, lb)
  {
    NameComesLast(Split(a), la);
    NameComesLast(Split(b), lb);
    if |la| < |lb| {
      assert lb[|la| - 1].name != NAME;
    }
    ComparatorMissesPrefixes(la, lb);
  }

  lemma ThreeDigitsBelowThousand(n: nat)
    requires n < 1000
    ensures ThreeDigits(n) == [0x30 + n / 100, 0x30 + n / 10 % 10, 0x30 + n % 10]
  {
    if n >= 100 {
      assert n / 10 / 10 == n / 100 && Digits(n / 100) == [0x30 + n / 100];
      assert Digits(n / 10) == Digits(n / 10 / 10) + [0x30 + n / 10 % 10];
      assert Digits(n) == Digits(n / 10) + [0x30 + n % 10];
    } else if n >= 10 {
      assert Digits(n / 10) == [0x30 + n / 10] && n / 100 == 0;
    }
  }

  /** The first three bytes decide. */
  lemma LessInThree(x: Str, y: Str)
    requires |x| >= 3 && |y| >= 3
    requires x[0] < y[0] || (x[0] == y[0] && (x[1] < y[1] || (x[1] == y[1] && x[2] < y[2])))
    ensures Less(x, y)
  {
    if x[0] == y[0] {
      assert Less(x, y) == Less(x[1..], y[1..]);
      if x[1] == y[1] {
        assert Less(x[1..], y[1..]) == Less(x[1..][1..], y[1..][1..]);
      }
    }
  }

  lemma DigitsDecide(i: nat, j: nat)
    requires i < j < 1000
    ensures var a, b := i / 10 % 10, j / 10 % 10;
      i / 100 < j / 100 || (i / 100 == j / 100 && (a < b || (a == b && i % 10 < j % 10)))
  {
    var a, b := i / 10, j / 10;
    assert i == 10 * a + i % 10 && j == 10 * b + j % 10;
    assert a == 10 * (a / 10) + a % 10 && b == 10 * (b / 10) + b % 10;
    assert a / 10 == i / 100 && b / 10 == j / 100;
  }

  lemma NodeNamesIncrease(i: nat, j: nat)
    requires i < j < 1000
    ensures Less(NodeName(i), NodeName(j))
  {
    hide Less, ThreeDigits;
    ThreeDigitsBelowThousand(i);
    ThreeDigitsBelowThousand(j);
    var p: Str := [0x5F, 0x5F, 0x6E];
    var x, y := ThreeDigits(i) + [0x5F, 0x5F], ThreeDigits(j) + [0x5F, 0x5F];
    assert NodeName(i) == p + x && NodeName(j) == p + y;
    DigitsDecide(i, j);
    LessInThree(x, y);
    LessAfterCommonPrefix(p, x, y);
  }

  lemma {:induction false} CompareAfterCommonPrefix(p: LabelSet, a: LabelSet, b: LabelSet)
    ensures Compare(p + a, p + b) == Compare(a, b)
  {
    if p == [] {
      assert p + a == a && p + b == b;
    } else {
      assert (p + a)[1..] == p[1..] + a && (p + b)[1..] == p[1..] + b;
      CompareAfterCommonPrefix(p[1..], a, b);
    }
  }

  /** `p` is where the labels that are not below `name` begin. */
  ghost predicate SplitsAt(ls: LabelSet, name: Str, p: nat) {
    && p <= |ls|
    && (forall k :: 0 <= k < p ==> Less(ls[k].name, name))
    && (forall k :: p <= k < |ls| ==> !Less(ls[k].name, name))
  }

  /** A sorted label set falls into the labels below a name and the others. */
  lemma {:induction false} FirstNotBelow(ls: LabelSet, name: Str) returns (p: nat)
    requires StrictlySorted(ByName, ls)
    ensures SplitsAt(ls, name, p)
  {
    p := 0;
    while p < |ls| && Less(ls[p].name, name)
      invariant p <= |ls| && forall k :: 0 <= k < p ==> Less(ls[k].name, name)
    {
      p := p + 1;
    }
    forall k | p <= k < |ls| ensures !Less(ls[k].name, name) {
      if k > p && Less(ls[k].name, name) {
        assert InStrictOrder(ByName, ls, p, k);
        LessTransitive(ls[p].name, ls[k].name, name);
      }
    }
  }

  lemma StrictlySortedPart(ls: LabelSet, p: nat)
    requires StrictlySorted(ByName, ls) && p <= |ls|
    ensures StrictlySorted(ByName, ls[..p]) && StrictlySorted(ByName, ls[p..])
  {
    forall i, j | 0 <= i < j < p ensures InStrictOrder(ByName, ls[..p], i, j) {
      assert InStrictOrder(ByName, ls, i, j);
    }
    forall i, j | 0 <= i < j < |ls| - p ensures InStrictOrder(ByName, ls[p..], i, j) {
      assert InStrictOrder(ByName, ls, p + i, p + j);
    }
  }

  /** What names of fewer than 1000 nodes have in common up to node `i` they have in their labels below it. */
  lemma SameLabelsBelow(x: seq<Str>, y: seq<Str>, lx: LabelSet, ly: LabelSet, i: nat, l: Label)
    requires Lists(lx, NodeLabels(x)[NAME := UNTAGGED]) && Lists(ly, NodeLabels(y)[NAME := UNTAGGED])
    requires |x| < 1000 && i < 1000 && forall j :: 0 <= j < i ==> Node(x, j) == Node(y, j)
    requires l in lx && Less(l.name, NodeName(i))
    ensures l in ly
  {
    hide Less, NodeName, NodeLabels, Lists, StrictWeakOrder, Node;
    StringOrderFacts(l.name, NodeName(i));
    NodeNameBelowName(i);
    var j := LabelOfNode(x, lx, l);
    if i < j {
      NodeNamesIncrease(i, j);
    }
    NodeIsLabelled(y, ly, j);
  }

  lemma StringOrderFacts(a: Str, b: Str)
    ensures Less(a, b) ==> !Less(b, a) && a != b
  {
    LessOrdersStrings();
    assert Asymmetric(Less, a, b);
  }

  lemma InNameOrder(ls: LabelSet, i: nat, j: nat)
    requires StrictlySorted(ByName, ls) && i < |ls| && j < |ls|
    ensures i < j ==> Less(ls[i].name, ls[j].name)
  {
    assert i < j ==> InStrictOrder(ByName, ls, i, j);
  }

  /** The first label that is not below node `i`: that node's own, if it has one. */
  lemma LabelAtNode(x: seq<Str>, lx: LabelSet, i: nat, p: nat)
    requires Lists(lx, NodeLabels(x)[NAME := UNTAGGED]) && SplitsAt(lx, NodeName(i), p) && i < 1000
    ensures p < |lx|
    ensures Node(x, i) != [] ==> lx[p] == Label(NodeName(i), Node(x, i))
    ensures Node(x, i) == [] ==> Less(NodeName(i), lx[p].name) && lx[p].name != NodeName(i)
  {
    hide Less, NodeName, NodeLabels, StrictlySorted;
    LessOrdersStrings();
    NameComesLast(x, lx);
    NodeNameBelowName(i);
    assert Asymmetric(Less, NodeName(i), NAME) && Asymmetric(Less, NodeName(i), NodeName(i));
    NodeLabelsLookup(x, i);
    assert Comparable(Less, lx[p].name, NodeName(i)) && lx[p] in lx;
    if Node(x, i) != [] {
      var own := Label(NodeName(i), Node(x, i));
      assert own in lx;
      var k :| 0 <= k < |lx| && lx[k] == own;
      InNameOrder(lx, p, k);
    }
  }

  lemma PartBelowIn(x: seq<Str>, y: seq<Str>, lx: LabelSet, ly: LabelSet, i: nat, p: nat, q: nat)
    requires Lists(lx, NodeLabels(x)[NAME := UNTAGGED]) && Lists(ly, NodeLabels(y)[NAME := UNTAGGED])
    requires |x| < 1000 && i < 1000 && forall j :: 0 <= j < i ==> Node(x, j) == Node(y, j)
    requires SplitsAt(lx, NodeName(i), p) && SplitsAt(ly, NodeName(i), q)
    ensures forall l :: l in lx[..p] ==> l in ly[..q]
  {
    hide Less, NodeName, NodeLabels, Lists, Node;
    forall l | l in lx[..p] ensures l in ly[..q] {
      SameLabelsBelow(x, y, lx, ly, i, l);
      var k :| 0 <= k < |ly| && ly[k] == l;
    }
  }

  lemma SamePartBelow(x: seq<Str>, y: seq<Str>, lx: LabelSet, ly: LabelSet, i: nat, p: nat, q: nat)
    requires Lists(lx, NodeLabels(x)[NAME := UNTAGGED]) && Lists(ly, NodeLabels(y)[NAME := UNTAGGED])
    requires |x| < 1000 && |y| < 1000 && i < 1000 && forall j :: 0 <= j < i ==> Node(x, j) == Node(y, j)
    requires SplitsAt(lx, NodeName(i), p) && SplitsAt(ly, NodeName(i), q)
    ensures lx[..p] == ly[..q]
  {
    hide Less, NodeName, NodeLabels, StrictlySorted, Node;
    PartBelowIn(x, y, lx, ly, i, p, q);
    PartBelowIn(y, x, ly, lx, i, q, p);
    ByNameOrders();
    StrictlySortedPart(lx, p);
    StrictlySortedPart(ly, q);
    StrictlySortedUnique(ByName, lx[..p], ly[..q]);
  }

  /**
   * For names of fewer than 1000 nodes the order is by nodes from the left: at the first
   * difference the smaller node comes first, and any node before a missing one, so that a
   * longer name precedes its own prefix.
   */
  lemma LabelOrderIsNodeOrder(a: Str, b: Str, la: LabelSet, lb: LabelSet, i: nat)
    requires Lists(la, UntaggedLabels(a)) && Lists(lb, UntaggedLabels(b))
    requires |Split(a)| < 1000 && |Split(b)| < 1000 && i < 1000
    requires Node(Split(a), i) != Node(Split(b), i)
    requires forall j :: 0 <= j < i ==> Node(Split(a), j) == Node(Split(b), j)
    ensures Before(la, lb) <==>
      Node(Split(a), i) != [] && (Node(Split(b), i) == [] || Less(Node(Split(a), i), Node(Split(b), i)))
  {
    hide Less, NodeName, NodeLabels, Split, StrictlySorted;
    var x, y, name := Split(a), Split(b), NodeName(i);
    var p := FirstNotBelow(la, name);
    var q := FirstNotBelow(lb, name);
    SamePartBelow(x, y, la, lb, i, p, q);
    assert la == la[..p] + la[p..] && lb == la[..p] + lb[q..];
    CompareAfterCommonPrefix(la[..p], la[p..], lb[q..]);
    LabelAtNode(x, la, i, p);
    LabelAtNode(y, lb, i, q);
    LessOrdersStrings();
    assert Asymmetric(Less, la[p].name, lb[q].name);
  }
}

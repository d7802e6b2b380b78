/** The label set of a training run: the distinct labels of the dataset in
    first-seen order (`[...new Set(labels)]`), the label-to-index object
    (`Object.fromEntries(etiquetas.map((e, i) => [e, i]))`) and the index of
    each sample's label (`ys`). */
module LabelSet {

  /** A class name as written in the dataset or in etiquetas.json. */
  type Label = string

  predicate NoDuplicates(s: seq<Label>) {
    forall i, j :: 0 <= i < j < |s| ==> s[i] != s[j]
  }

  /** Position of the first occurrence of x in s. */
  function FirstIndex(s: seq<Label>, x: Label): (k: nat)
    requires x in s
    ensures k < |s| && s[k] == x
    ensures forall j :: 0 <= j < k ==> s[j] != x
  {
    if s[0] == x then 0 else 1 + FirstIndex(s[1..], x)
  }

  /** `[...new Set(xs)]`: a Set keeps insertion order and ignores repeats. */
  function Unique(xs: seq<Label>): (u: seq<Label>)
    ensures NoDuplicates(u)
    ensures forall x :: x in u <==> x in xs
    ensures |u| <= |xs|
  {
    if xs == [] then []
    else
      var u := Unique(xs[..|xs| - 1]);
      if xs[|xs| - 1] in u then u else u + [xs[|xs| - 1]]
  }

  lemma FirstIndexOfExtension(s: seq<Label>, a: Label, x: Label)
    requires x in s
    ensures FirstIndex(s + [a], x) == FirstIndex(s, x)
  {
    var k := FirstIndex(s, x);
    assert (s + [a])[k] == x;
    assert forall j :: 0 <= j < |s| ==> (s + [a])[j] == s[j];
  }

  /** Unique lists the labels in the order of their first occurrence. */
  lemma {:induction false} UniqueFirstSeenOrder(xs: seq<Label>)
    ensures forall i, j :: 0 <= i < j < |Unique(xs)| ==>
      FirstIndex(xs, Unique(xs)[i]) < FirstIndex(xs, Unique(xs)[j])
  {
    if xs != [] {
      var init, last := xs[..|xs| - 1], xs[|xs| - 1];
      assert xs == init + [last];
      var u0 := Unique(init);
      UniqueFirstSeenOrder(init);
      forall y | y in u0 ensures FirstIndex(xs, y) == FirstIndex(init, y) {
        FirstIndexOfExtension(init, last, y);
      }
      if last !in u0 {
        assert last !in init;
        assert forall j :: 0 <= j < |init| ==> xs[j] == init[j];
      }
    }
  }

  /** `Object.fromEntries(ls.map((e, i) => [e, i]))`: later entries win. */
  function IndexMap(ls: seq<Label>): (m: map<Label, nat>)
    ensures forall x :: x in m <==> x in ls
    ensures forall x :: x in m ==> m[x] < |ls| && ls[m[x]] == x
    ensures NoDuplicates(ls) ==> forall i :: 0 <= i < |ls| ==> ls[i] in m && m[ls[i]] == i
  {
    if ls == [] then map[]
    else IndexMap(ls[..|ls| - 1])[ls[|ls| - 1] := |ls| - 1]
  }

  /** `ys = labels.map((l) => etiquetaToIndex[l])` with the index map built
      from Unique(labels). */
  function LabelIndices(labels: seq<Label>): (ys: seq<nat>)
    ensures |ys| == |labels|
    ensures forall i :: 0 <= i < |labels| ==>
      ys[i] < |Unique(labels)| && Unique(labels)[ys[i]] == labels[i]
  {
    var m := IndexMap(Unique(labels));
    seq(|labels|, i requires 0 <= i < |labels| => m[labels[i]])
  }

  /** Labels that are already distinct keep their order: the label set of
      such a dataset is its label list. */
  lemma {:induction false} UniqueOfDistinct(xs: seq<Label>)
    requires NoDuplicates(xs)
    ensures Unique(xs) == xs
  {
    if xs != [] {
      var init := xs[..|xs| - 1];
      assert NoDuplicates(init);
      UniqueOfDistinct(init);
      assert xs[|xs| - 1] !in init;
      assert xs == init + [xs[|xs| - 1]];
    }
  }
}

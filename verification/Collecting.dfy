/** Lists that keep the first occurrence of each name, as the source builds with a list and a set side by side. */
module Collecting {
  /** The names of `wanted` among `candidates`, each once, in the order they first occur. */
  function Collect(candidates: seq<string>, wanted: set<string>): (names: seq<string>)
    decreases |candidates|
  {
    if candidates == [] then []
    else
      var k := |candidates| - 1;
      var before := Collect(candidates[..k], wanted);
      if candidates[k] in wanted && candidates[k] !in before then before + [candidates[k]] else before
  }

  predicate Distinct(names: seq<string>) {
    forall i, j :: 0 <= i < j < |names| ==> names[i] != names[j]
  }


  /** No name is missing, none is there twice, and none is there that is not wanted. */
  lemma {:induction false} CollectExact(candidates: seq<string>, wanted: set<string>)
    ensures Distinct(Collect(candidates, wanted))
    ensures forall n :: n in Collect(candidates, wanted) <==> n in candidates && n in wanted
  {
    if candidates != [] {
      var k := |candidates| - 1;
      CollectExact(candidates[..k], wanted);
      assert candidates == candidates[..k] + [candidates[k]];
    }
  }

  lemma CollectNext(a: seq<string>, n: string, wanted: set<string>)
    ensures Collect(a + [n], wanted)
         == if n in wanted && n !in Collect(a, wanted) then Collect(a, wanted) + [n] else Collect(a, wanted)
  {
    assert (a + [n])[..|a|] == a;
  }

  /** The place of the first `n`. */
  function FirstAt(candidates: seq<string>, n: string): (i: nat)
    requires n in candidates
    ensures i < |candidates| && candidates[i] == n && forall j :: 0 <= j < i ==> candidates[j] != n
  {
    if candidates[0] == n then 0 else 1 + FirstAt(candidates[1..], n)
  }

  lemma FirstAtPrefix(a: seq<string>, b: seq<string>, n: string)
    requires a <= b && n in a
    ensures n in b && FirstAt(b, n) == FirstAt(a, n)
  {
    var i, j := FirstAt(a, n), FirstAt(b, n);
    assert b[i] == n;
    if j < i {
      assert a[j] == n;
    }
  }

  /** The names come in the order in which they first occur. */
  lemma {:induction false} CollectOrder(candidates: seq<string>, wanted: set<string>, i: nat, j: nat)
    requires i < j < |Collect(candidates, wanted)|
    ensures var r := Collect(candidates, wanted);
      && r[i] in candidates && r[j] in candidates
      && FirstAt(candidates, r[i]) < FirstAt(candidates, r[j])
    decreases |candidates|
  {
    hide FirstAt;
    var k := |candidates| - 1;
    var most := candidates[..k];
    var before := Collect(most, wanted);
    CollectExact(most, wanted);
    if j < |before| {
      CollectOrder(most, wanted, i, j);
      FirstAtPrefix(most, candidates, before[j]);
      FirstAtPrefix(most, candidates, before[i]);
    } else {
      assert before[i] in most;
      FirstAtPrefix(most, candidates, before[i]);
      NotAmong(most, candidates, before, wanted);
    }
  }

  /** What is collected last was not there before. */
  lemma NotAmong(most: seq<string>, candidates: seq<string>, before: seq<string>, wanted: set<string>)
    requires candidates != [] && most == candidates[..|candidates| - 1] && before == Collect(most, wanted)
    requires candidates[|candidates| - 1] in wanted && candidates[|candidates| - 1] !in before
    ensures FirstAt(candidates, candidates[|candidates| - 1]) == |most|
  {
    var k := |most|;
    CollectExact(most, wanted);
    var f := FirstAt(candidates, candidates[k]);
    if f < k {
      assert most[f] in most;
    }
  }
}

/**
  How a JavaScript object literal `{ k1: v1, k2: v2, ... }` with string keys
  (other than `__proto__`, which sets the prototype instead) evaluates to a
  map: entries are read left to right, and a repeated key is overwritten by its
  later occurrence.
 */
module ObjectLiteral {

  /** The map an object literal with these entries evaluates to. */
  function BuildMap(es: seq<(string, string)>): (m: map<string, string>)
    ensures forall i :: 0 <= i < |es| ==> es[i].0 in m
    ensures forall k :: k in m ==> exists i :: 0 <= i < |es| && es[i] == (k, m[k])
  {
    if es == [] then map[]
    else
      var last := es[|es| - 1];
      BuildMap(es[..|es| - 1])[last.0 := last.1]
  }

  /**
    A later entry overwrites any earlier one with the same key: an entry whose
    key no later entry repeats is the one bound.
   */
  lemma {:induction false} LastOccurrenceWins(es: seq<(string, string)>, j: nat)
    requires j < |es|
    requires forall k :: j < k < |es| ==> es[k].0 != es[j].0
    ensures BuildMap(es)[es[j].0] == es[j].1
    decreases |es|
  {
    if j < |es| - 1 {
      assert es[..|es| - 1][j] == es[j];
      LastOccurrenceWins(es[..|es| - 1], j);
    }
  }

  ghost predicate DistinctKeys(es: seq<(string, string)>) {
    forall i, j :: 0 <= i < j < |es| ==> es[i].0 != es[j].0
  }

  /** With no repeated key, the last entry's key is new to the map built from the entries before it. */
  lemma LastKeyIsNew(es: seq<(string, string)>)
    requires es != [] && DistinctKeys(es)
    ensures DistinctKeys(es[..|es| - 1])
    ensures es[|es| - 1].0 !in BuildMap(es[..|es| - 1])
  {
    var init := es[..|es| - 1];
    var m := BuildMap(init);
    forall k | k in m ensures k != es[|es| - 1].0 {
      var i :| 0 <= i < |init| && init[i] == (k, m[k]);
      assert init[i] == es[i];
    }
  }

  /** With no repeated key, the literal loses no entry: one binding per entry. */
  lemma {:induction false} SizeOfDistinct(es: seq<(string, string)>)
    requires DistinctKeys(es)
    ensures |BuildMap(es)| == |es|
  {
    if es != [] {
      LastKeyIsNew(es);
      SizeOfDistinct(es[..|es| - 1]);
    }
  }

  /** With no repeated key, every key is bound to the value written beside it. */
  lemma {:induction false} ValuesOfDistinct(es: seq<(string, string)>)
    requires DistinctKeys(es)
    ensures forall i :: 0 <= i < |es| ==> BuildMap(es)[es[i].0] == es[i].1
  {
    if es != [] {
      var init := es[..|es| - 1];
      var last := es[|es| - 1];
      LastKeyIsNew(es);
      ValuesOfDistinct(init);
      forall i | 0 <= i < |es| - 1 ensures BuildMap(es)[es[i].0] == es[i].1 {
        assert es[i] == init[i];
        assert es[i].0 != last.0;
      }
    }
  }
}

/** Keeping each value once, in the order of first appearance: how tags are deduplicated, and the order in which a
    migration's records arrive. */
module Dedupe {
  import opened Wrappers

  /** The values that are there, each once, in the order of their first appearance. */
  ghost function Distinct(xs: seq<Option<string>>): seq<string> {
    if xs == [] then []
    else
      var before := Distinct(xs[..|xs| - 1]);
      var x := xs[|xs| - 1];
      if x.None? || x.value in before then before else before + [x.value]
  }

  lemma {:induction false} DistinctStep(xs: seq<Option<string>>, i: nat)
    requires i < |xs|
    ensures Distinct(xs[..i + 1]) == if xs[i].None? || xs[i].value in Distinct(xs[..i]) then Distinct(xs[..i])
                                     else Distinct(xs[..i]) + [xs[i].value]
  {
    assert xs[..i + 1][..i] == xs[..i];
  }

  ghost predicate NoDuplicates(words: seq<string>) {
    forall i, j :: 0 <= i < j < |words| ==> words[i] != words[j]
  }

  ghost predicate FirstAt(xs: seq<Option<string>>, i: nat, x: string) {
    i < |xs| && xs[i] == Some(x) && forall j :: 0 <= j < i ==> xs[j] != Some(x)
  }

  /** `at` gives, for each value kept, where it first appeared. */
  ghost predicate FirstMentions(xs: seq<Option<string>>, kept: seq<string>, at: seq<nat>) {
    && |at| == |kept|
    && (forall k :: 0 <= k < |at| ==> FirstAt(xs, at[k], kept[k]))
    && (forall k, m :: 0 <= k < m < |at| ==> at[k] < at[m])
  }

  /** What is kept is exactly what appeared, each value once, in the order of first appearance. */
  lemma {:induction false} DistinctSpec(xs: seq<Option<string>>) returns (at: seq<nat>)
    ensures NoDuplicates(Distinct(xs))
    ensures FirstMentions(xs, Distinct(xs), at)
    ensures forall x :: x in Distinct(xs) <==> Some(x) in xs
  {
    at := [];
    if xs != [] {
      var n := |xs| - 1;
      var init := xs[..n];
      at := DistinctSpec(init);
      assert xs == init + [xs[n]];
      var before := Distinct(init);
      forall k | 0 <= k < |at|
        ensures FirstAt(xs, at[k], before[k])
      {
        assert FirstAt(init, at[k], before[k]);
      }
      if xs[n].Some? && xs[n].value !in before {
        assert FirstAt(xs, n, xs[n].value);
        at := at + [n];
      }
    }
  }

  lemma {:induction false} DistinctOfDistinct(xs: seq<Option<string>>, words: seq<string>)
    requires |xs| == |words| && NoDuplicates(words)
    requires forall i :: 0 <= i < |xs| ==> xs[i] == Some(words[i])
    ensures Distinct(xs) == words
  {
    if xs != [] {
      var n := |xs| - 1;
      DistinctOfDistinct(xs[..n], words[..n]);
      assert words == words[..n] + [words[n]];
    }
  }

  lemma {:induction false} DistinctOfNothing(xs: seq<Option<string>>)
    requires forall i :: 0 <= i < |xs| ==> xs[i] == None
    ensures Distinct(xs) == []
  {
    if xs != [] {
      DistinctOfNothing(xs[..|xs| - 1]);
    }
  }

  /** What a prefix keeps is a prefix of what the whole keeps. */
  lemma {:induction false} DistinctOfPrefix(xs: seq<Option<string>>, i: nat)
    requires i <= |xs|
    ensures Distinct(xs[..i]) <= Distinct(xs)
    decreases |xs|
  {
    if i == |xs| {
      assert xs[..i] == xs;
    } else {
      var init := xs[..|xs| - 1];
      DistinctOfPrefix(init, i);
      assert init[..i] == xs[..i];
    }
  }

  ghost function SetOf(words: seq<string>): set<string> {
    set word | word in words
  }

  lemma {:induction false} SizeOfSet(words: seq<string>)
    requires NoDuplicates(words)
    ensures |SetOf(words)| == |words|
  {
    if words != [] {
      var n := |words| - 1;
      SizeOfSet(words[..n]);
      assert words == words[..n] + [words[n]];
      assert SetOf(words) == SetOf(words[..n]) + {words[n]};
    }
  }
}

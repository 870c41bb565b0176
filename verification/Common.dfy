/** Vocabulary shared by the models: optional values and a few facts about sequences. */
module Common {

  datatype Option<+T> = None | Some(value: T)

  function Range(n: nat): (r: seq<nat>)
    ensures |r| == n && forall i :: 0 <= i < n ==> r[i] == i
  {
    seq(n, i => i)
  }

  predicate Increasing(s: seq<int>) {
    forall i, j :: 0 <= i < j < |s| ==> s[i] < s[j]
  }

  ghost predicate Distinct<T>(s: seq<T>) {
    forall i, j :: 0 <= i < j < |s| ==> s[i] != s[j]
  }

  /** The newest `n` elements; a nonpositive `n` keeps nothing. */
  function Newest<T>(s: seq<T>, n: int): seq<T> {
    if n <= 0 then [] else if |s| <= n then s else s[|s| - n..]
  }

  /** The sequence without the element at one position. */
  function Without<T>(s: seq<T>, i: nat): (r: seq<T>)
    requires i < |s|
    ensures |r| == |s| - 1
  {
    s[..i] + s[i + 1..]
  }

  function Flatten<T>(ss: seq<seq<T>>): seq<T> {
    if ss == [] then [] else Flatten(ss[..|ss| - 1]) + ss[|ss| - 1]
  }

  function Max(a: int, b: int): int { if a < b then b else a }

  lemma IncreasingDistinct(s: seq<int>)
    requires Increasing(s)
    ensures Distinct(s)
  {
  }

  /** The positions chosen below `n`, and `n` itself if it is chosen. */
  lemma ChooseNext(before: seq<nat>, n: nat, chosen: bool) returns (at: seq<nat>)
    requires Increasing(before) && forall i :: i in before ==> i < n
    ensures at == (if chosen then before + [n] else before) && Increasing(at)
    ensures forall i :: i in at <==> i in before || (chosen && i == n)
  {
    forall k | 0 <= k < |before|
      ensures before[k] < n
    {
      assert before[k] in before;
    }
    at := if chosen then before + [n] else before;
  }

  /** A sequence without repetition holds each of its elements exactly once. */
  lemma {:induction false} DistinctMultiset<T>(s: seq<T>)
    requires Distinct(s)
    ensures forall x :: multiset(s)[x] == if x in s then 1 else 0
  {
    if s != [] {
      var rest := s[..|s| - 1];
      assert s == rest + [s[|s| - 1]];
      DistinctMultiset(rest);
    }
  }

  /** A sequence without repetition whose elements are the numbers below `n` has length `n`. */
  lemma PermutationLength(s: seq<nat>, n: nat)
    requires Distinct(s) && forall x: nat :: x in s <==> x < n
    ensures |s| == n
  {
    DistinctMultiset(s);
    IncreasingDistinct(Range(n));
    DistinctMultiset(Range(n));
    assert forall x :: x in Range(n) <==> 0 <= x < n by {
      forall x: nat | x < n
        ensures x in Range(n)
      {
        assert Range(n)[x] == x;
      }
    }
    assert multiset(s) == multiset(Range(n));
    assert |multiset(s)| == |multiset(Range(n))|;
  }

  lemma Pick<T>(s: set<T>) returns (x: T)
    requires |s| > 0
    ensures x in s
  {
    x :| x in s;
  }

  lemma OccursTwice<T>(t: seq<T>, i: nat, j: nat)
    requires i < j < |t| && t[i] == t[j]
    ensures multiset(t)[t[i]] >= 2
  {
    assert t == t[..i] + [t[i]] + t[i + 1..j] + [t[j]] + t[j + 1..];
  }

  lemma FlattenSnoc<T>(ss: seq<seq<T>>, s: seq<T>)
    ensures Flatten(ss + [s]) == Flatten(ss) + s
  {
    assert (ss + [s])[..|ss|] == ss;
  }
}

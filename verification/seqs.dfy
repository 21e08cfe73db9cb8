/**
 * Array.prototype.indexOf and the `indexOf` + `splice(index, 1)` idiom the
 * domain objects use to drop one element of a list.
 */
module Seqs {
  import opened Wrappers

  /** indexOf: the first position holding x, or None for -1. */
  function IndexOf<T(==)>(s: seq<T>, x: T): (r: Option<nat>)
    ensures r.None? <==> x !in s
    ensures r.Some? ==> r.value < |s| && s[r.value] == x && x !in s[..r.value]
  {
    if |s| == 0 then None
    else if s[0] == x then Some(0)
    else
      match IndexOf(s[1..], x)
      case None => None
      case Some(k) =>
        assert s[..k + 1] == [s[0]] + s[1..][..k];
        Some(k + 1)
  }

  /** `const i = s.indexOf(x); if (i > -1) s.splice(i, 1)`. */
  function RemoveFirst<T(==)>(s: seq<T>, x: T): (r: seq<T>)
    ensures x !in s ==> r == s
    ensures x in s ==> |r| == |s| - 1
    ensures multiset(r) == multiset(s) - multiset{x}
  {
    match IndexOf(s, x)
    case None => s
    case Some(k) =>
      assert s == s[..k] + [x] + s[k + 1..];
      s[..k] + s[k + 1..]
  }

  /** A reference definition: walk the list and drop the first x met. */
  function DropFirst<T(==)>(s: seq<T>, x: T): (r: seq<T>)
  {
    if |s| == 0 then []
    else if s[0] == x then s[1..]
    else [s[0]] + DropFirst(s[1..], x)
  }

  /** The splice keeps every other element in its order: it is DropFirst. */
  lemma {:induction false} RemoveFirstIsDropFirst<T>(s: seq<T>, x: T)
    ensures RemoveFirst(s, x) == DropFirst(s, x)
  {
    if |s| == 0 {
    } else if s[0] == x {
      assert IndexOf(s, x) == Some(0);
      assert s[..0] + s[1..] == s[1..];
    } else {
      RemoveFirstIsDropFirst(s[1..], x);
      RemoveFirstStep(s, x);
    }
  }

  lemma RemoveFirstStep<T>(s: seq<T>, x: T)
    requires |s| > 0 && s[0] != x
    ensures RemoveFirst(s, x) == [s[0]] + RemoveFirst(s[1..], x)
  {
    var t := s[1..];
    match IndexOf(t, x)
    case None =>
      assert IndexOf(s, x) == None;
    case Some(k) =>
      assert IndexOf(s, x) == Some(k + 1);
      assert s[..k + 1] == [s[0]] + t[..k];
      assert s[k + 2..] == t[k + 1..];
  }

  /** An element that occurred once is gone after its removal. */
  lemma RemoveOnlyOccurrence<T>(s: seq<T>, x: T)
    requires multiset(s)[x] == 1
    ensures x !in RemoveFirst(s, x)
  {
    assert multiset(RemoveFirst(s, x))[x] == 0;
  }

  /** Removing x keeps every other value, with its multiplicity. */
  lemma RemoveKeepsOthers<T>(s: seq<T>, x: T, y: T)
    requires y != x
    ensures multiset(RemoveFirst(s, x))[y] == multiset(s)[y]
    ensures y in RemoveFirst(s, x) <==> y in s
  {
    assert multiset(RemoveFirst(s, x))[y] == multiset(s)[y];
  }

  /** No value occurs twice. */
  predicate Distinct<T(==)>(s: seq<T>) {
    forall i, j :: 0 <= i < j < |s| ==> s[i] != s[j]
  }

  /** In a list without duplicates each member occurs exactly once. */
  lemma {:induction false} DistinctOnce<T>(s: seq<T>, x: T)
    requires Distinct(s) && x in s
    ensures multiset(s)[x] == 1
  {
    if s[0] == x {
      assert x !in s[1..];
      assert s == [s[0]] + s[1..];
    } else {
      DistinctOnce(s[1..], x);
      assert s == [s[0]] + s[1..];
    }
  }

  /** Appending a value that is absent keeps the list free of duplicates. */
  lemma AppendDistinct<T>(s: seq<T>, x: T)
    requires Distinct(s) && x !in s
    ensures Distinct(s + [x])
  {
  }

  /** Removing the value just appended gives the list back. */
  lemma {:induction false} RemoveAppended<T>(s: seq<T>, x: T)
    requires x !in s
    ensures RemoveFirst(s + [x], x) == s
  {
    assert IndexOf(s + [x], x) == Some(|s|) by {
      assert (s + [x])[..|s|] == s;
    }
    assert (s + [x])[..|s|] == s;
  }

  /** Removing an element keeps a list free of duplicates. */
  lemma RemoveKeepsDistinct<T>(s: seq<T>, x: T)
    requires Distinct(s)
    ensures Distinct(RemoveFirst(s, x))
  {
    match IndexOf(s, x)
    case None =>
    case Some(k) =>
      var r := s[..k] + s[k + 1..];
      assert forall i :: 0 <= i < |r| ==> r[i] == if i < k then s[i] else s[i + 1];
  }

  /** The lists of `ss` one after another, in order. */
  function Flatten<T>(ss: seq<seq<T>>): seq<T>
  {
    if |ss| == 0 then [] else ss[0] + Flatten(ss[1..])
  }

  /** Every element of every list is in the flattened list. */
  lemma {:induction false} FlattenContains<T>(ss: seq<seq<T>>, i: nat, x: T)
    requires i < |ss| && x in ss[i]
    ensures x in Flatten(ss)
  {
    if i > 0 {
      assert ss[1..][i - 1] == ss[i];
      FlattenContains(ss[1..], i - 1, x);
    }
  }

  /** The flattened list is empty iff every list is. */
  lemma {:induction false} FlattenEmpty<T>(ss: seq<seq<T>>)
    ensures Flatten(ss) == [] <==> forall i :: 0 <= i < |ss| ==> ss[i] == []
  {
    if |ss| > 0 {
      FlattenEmpty(ss[1..]);
      assert forall i :: 1 <= i < |ss| ==> ss[i] == ss[1..][i - 1];
    }
  }
}

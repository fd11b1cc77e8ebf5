/** Small sequence helpers shared by the three sketcher versions: an optional
    value, Python's `list.index` and `list.remove`, duplicate-freedom, and the
    `pairs` generator that walks a polyline segment by segment. */
module Util {

  /** Python's `None` or a value. */
  datatype Option<T> = None | Some(value: T)

  /** The last element of a non-empty sequence (`l[-1]`). */
  function Last<T>(s: seq<T>): T
    requires |s| > 0
  {
    s[|s| - 1]
  }

  /** No element occurs twice. */
  ghost predicate NoDup<T>(s: seq<T>)
  {
    forall i, j :: 0 <= i < j < |s| ==> s[i] != s[j]
  }

  /** Position of the first occurrence of `x` (Python's `list.index`). */
  function IndexOf<T(==)>(s: seq<T>, x: T): (i: nat)
    requires x in s
    ensures i < |s| && s[i] == x
    ensures x !in s[..i]
  {
    if s[0] == x then 0
    else
      var j := IndexOf(s[1..], x);
      assert s[..j + 1] == [s[0]] + s[1..][..j];
      1 + j
  }

  /** In a duplicate-free sequence every element's first occurrence is its only one. */
  lemma IndexOfNoDup<T>(s: seq<T>, i: nat)
    requires NoDup(s) && i < |s|
    ensures IndexOf(s, s[i]) == i
  {
  }

  /** Remove the first occurrence of `x` (Python's `list.remove`). */
  function RemoveFirst<T(==)>(s: seq<T>, x: T): (r: seq<T>)
    requires x in s
    ensures |r| == |s| - 1
    ensures multiset(r) == multiset(s) - multiset{x}
    ensures forall y :: y in r ==> y in s
  {
    var i := IndexOf(s, x);
    assert s == s[..i] + [x] + s[i + 1..];
    assert multiset(s) == multiset(s[..i]) + multiset{x} + multiset(s[i + 1..]);
    s[..i] + s[i + 1..]
  }

  /** `RemoveFirst` deletes exactly the first occurrence `i` of `x`;
      everything else keeps its relative order. */
  lemma RemoveFirstKeepsOrder<T>(s: seq<T>, x: T, i: nat)
    requires i < |s| && s[i] == x && x !in s[..i]
    ensures RemoveFirst(s, x) == s[..i] + s[i + 1..]
  {
  }

  /** Removing an element appended to a sequence that did not hold it gives
      back that sequence. */
  lemma RemoveAppended<T>(s: seq<T>, x: T)
    requires x !in s
    ensures RemoveFirst(s + [x], x) == s
  {
    assert x !in (s + [x])[..|s|];
    assert IndexOf(s + [x], x) == |s|;
  }

  /** Removing the last element of a duplicate-free sequence drops its tail. */
  lemma RemoveLastNoDup<T>(s: seq<T>)
    requires |s| > 0 && NoDup(s)
    ensures RemoveFirst(s, Last(s)) == s[..|s| - 1]
  {
    IndexOfNoDup(s, |s| - 1);
  }

  /** A prefix of a duplicate-free sequence is duplicate-free. */
  lemma PrefixNoDup<T>(s: seq<T>, n: nat)
    requires n <= |s| && NoDup(s)
    ensures NoDup(s[..n])
  {
  }

  /** The segments of polyline `l`: `(l[i], l[i+1])` for consecutive points, then
      the closing segment `(l[n-1], l[0])` when `loop` is set; nothing for an
      empty list. The loop mirrors the generator, carrying the previous point. */
  method Pairs<T>(l: seq<T>, loop: bool) returns (r: seq<(T, T)>)
    ensures |l| == 0 ==> r == []
    ensures |l| > 0 ==> |r| == |l| - 1 + (if loop then 1 else 0)
    ensures forall i :: 0 <= i < |l| - 1 ==> r[i] == (l[i], l[i + 1])
    ensures loop && |l| > 0 ==> r[|l| - 1] == (l[|l| - 1], l[0])
  {
    r := [];
    if |l| == 0 {
      return;
    }
    var first := l[0];
    var k := 1;
    while k < |l|
      invariant 1 <= k <= |l|
      invariant |r| == k - 1
      invariant first == l[k - 1]
      invariant forall i :: 0 <= i < k - 1 ==> r[i] == (l[i], l[i + 1])
    {
      var second := l[k];
      r := r + [(first, second)];
      first := second;
      k := k + 1;
    }
    if loop {
      r := r + [(first, l[0])];
    }
  }
}

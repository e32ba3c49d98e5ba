/** Counting distinct elements of sequences. */
module Counting {
  /** A sequence without the element at k, if there is one. */
  function Without<T>(l: seq<T>, k: nat): (r: seq<T>)
    requires k <= |l|
    ensures |r| == if k < |l| then |l| - 1 else |l|
    ensures forall i :: 0 <= i < |r| ==> r[i] == l[if i < k then i else i + 1]
  {
    if k < |l| then l[..k] + l[k + 1..] else l
  }

  ghost function Elements<T(!new)>(s: seq<T>): (r: set<T>)
    ensures forall x :: x in r <==> x in s
  {
    if |s| == 0 then {} else Elements(s[1..]) + {s[0]}
  }

  ghost function Below(n: nat): (r: set<nat>)
    ensures forall x: nat :: x in r <==> x < n
    ensures |r| == n
  {
    if n == 0 then {}
    else
      var m: nat := n - 1;
      Below(m) + {m}
  }

  lemma {:induction false} DistinctCount<T(!new)>(s: seq<T>)
    requires forall i, j :: 0 <= i < j < |s| ==> s[i] != s[j]
    ensures |Elements(s)| == |s|
  {
    if |s| > 0 {
      DistinctCount(s[1..]);
      assert s[0] !in s[1..];
    }
  }

  lemma {:induction false} SubsetSize<T>(a: set<T>, b: set<T>)
    requires a <= b
    ensures |a| <= |b| && (|a| == |b| ==> a == b)
  {
    if a != {} {
      var x :| x in a;
      SubsetSize(a - {x}, b - {x});
    }
  }

  /** Distinct numbers below n are at most n, and when they are n they are all of them. */
  lemma DistinctFit(order: seq<nat>, n: nat)
    requires forall k :: 0 <= k < |order| ==> order[k] < n
    requires forall i, j :: 0 <= i < j < |order| ==> order[i] != order[j]
    ensures |order| <= n
    ensures |order| == n ==> Elements(order) == Below(n)
  {
    DistinctCount(order);
    SubsetSize(Elements(order), Below(n));
  }

  lemma {:induction false} ElementsBound<T(!new)>(s: seq<T>)
    ensures |Elements(s)| <= |s|
  {
    if |s| > 0 {
      ElementsBound(s[1..]);
    }
  }
}

/** The searching loops over lists, as functions on sequences. */
module Lists {
  import opened Options

  /** The sequence without the first element that satisfies `p`. */
  function WithoutFirst<T>(s: seq<T>, p: T -> bool): seq<T> {
    if s == [] then []
    else if p(s[0]) then s[1..]
    else [s[0]] + WithoutFirst(s[1..], p)
  }

  /** The first element that satisfies `p`. */
  function First<T>(s: seq<T>, p: T -> bool): Option<T> {
    if s == [] then None
    else if p(s[0]) then Some(s[0])
    else First(s[1..], p)
  }

  /** `k` is the index of the first match. */
  ghost predicate IsFirst<T>(s: seq<T>, p: T -> bool, k: nat) {
    k < |s| && p(s[k]) && forall j :: 0 <= j < k ==> !p(s[j])
  }

  lemma {:induction false} FirstAt<T>(s: seq<T>, p: T -> bool, k: nat)
    requires IsFirst(s, p, k)
    ensures First(s, p) == Some(s[k])
    ensures WithoutFirst(s, p) == s[..k] + s[k + 1..]
  {
    if k > 0 {
      FirstAt(s[1..], p, k - 1);
      assert s[..k] + s[k + 1..] == [s[0]] + (s[1..][..k - 1] + s[1..][k..]);
    }
  }

  lemma {:induction false} NoneMatches<T>(s: seq<T>, p: T -> bool)
    requires forall j :: 0 <= j < |s| ==> !p(s[j])
    ensures First(s, p) == None && WithoutFirst(s, p) == s
  {
    if s != [] {
      NoneMatches(s[1..], p);
    }
  }

  /** The sequence with `f` applied to the first element that satisfies `p`. */
  function MapFirst<T>(s: seq<T>, p: T -> bool, f: T -> T): seq<T> {
    if s == [] then []
    else if p(s[0]) then [f(s[0])] + s[1..]
    else [s[0]] + MapFirst(s[1..], p, f)
  }

  lemma {:induction false} MapAt<T>(s: seq<T>, k: nat, p: T -> bool, f: T -> T)
    requires k < |s| && p(s[k]) && forall j :: 0 <= j < k ==> !p(s[j])
    ensures MapFirst(s, p, f) == s[k := f(s[k])]
  {
    if k > 0 {
      MapAt(s[1..], k - 1, p, f);
    }
  }

  lemma {:induction false} MapNone<T>(s: seq<T>, p: T -> bool, f: T -> T)
    requires forall j :: 0 <= j < |s| ==> !p(s[j])
    ensures MapFirst(s, p, f) == s
  {
    if s != [] {
      MapNone(s[1..], p, f);
    }
  }

  /** `after` is `before` without its first element that satisfies `p`, or all of it if none does. */
  ghost predicate TakesOut<T>(before: seq<T>, after: seq<T>, p: T -> bool) {
    || (exists k: nat :: IsFirst(before, p, k) && after == before[..k] + before[k + 1..])
    || ((forall x :: x in before ==> !p(x)) && after == before)
  }

  /** What is left can be stated by positions alone. */
  lemma {:induction false} WithoutFirstTakesOut<T>(s: seq<T>, p: T -> bool)
    ensures TakesOut(s, WithoutFirst(s, p), p)
    ensures First(s, p).Some? ==> exists k: nat :: IsFirst(s, p, k) && First(s, p).value == s[k]
    ensures First(s, p).None? ==> forall x :: x in s ==> !p(x)
  {
    if k :| 0 <= k < |s| && p(s[k]) {
      var first := FirstIndex(s, p, k);
      FirstAt(s, p, first);
      assert IsFirst(s, p, first);
    } else {
      NoneMatches(s, p);
    }
  }

  lemma TakesOutSame<T>(s: seq<T>, after: seq<T>, p: T -> bool, q: T -> bool)
    requires TakesOut(s, after, p) && forall x :: x in s ==> p(x) == q(x)
    ensures TakesOut(s, after, q)
  {
    if k: nat :| IsFirst(s, p, k) && after == s[..k] + s[k + 1..] {
      assert IsFirst(s, q, k);
    }
  }

  lemma {:induction false} FirstIndex<T>(s: seq<T>, p: T -> bool, k: nat) returns (first: nat)
    requires k < |s| && p(s[k])
    ensures IsFirst(s, p, first)
  {
    if j :| 0 <= j < k && p(s[j]) {
      first := FirstIndex(s, p, j);
    } else {
      first := k;
    }
  }

  /** Several sequences one after the other. */
  function Joined<T>(parts: seq<seq<T>>): seq<T> {
    if parts == [] then [] else Joined(parts[..|parts| - 1]) + parts[|parts| - 1]
  }

  lemma {:induction false} JoinedLast<T>(parts: seq<seq<T>>, last: seq<T>)
    ensures Joined(parts + [last]) == Joined(parts) + last
  {
    assert (parts + [last])[..|parts|] == parts;
  }

  function JoinedAll<T>(parts: seq<seq<seq<T>>>): seq<T> {
    if parts == [] then [] else JoinedAll(parts[..|parts| - 1]) + Joined(parts[|parts| - 1])
  }

  lemma {:induction false} JoinedAllLast<T>(parts: seq<seq<seq<T>>>, last: seq<seq<T>>)
    ensures JoinedAll(parts + [last]) == JoinedAll(parts) + Joined(last)
  {
    assert (parts + [last])[..|parts|] == parts;
  }
}

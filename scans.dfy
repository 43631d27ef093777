/**
 * The three single-pass selections the scripts make over a list: the first-seen minimum
 * (a running minimum replaced only on a strict '<'), the first element that matches, and the
 * last element that matches (a slot overwritten on every match). Each is defined by recursion on
 * the prefix, as the loops build it, and characterised declaratively in its ensures.
 */
module Scans {
  import opened Wrappers

  /** i is the first position holding the minimum key among the elements satisfying p. */
  ghost predicate IsFirstMin<T>(s: seq<T>, p: T -> bool, key: T -> real, i: nat) {
    && i < |s|
    && p(s[i])
    && (forall j :: 0 <= j < |s| && p(s[j]) ==> key(s[i]) <= key(s[j]))
    && (forall j :: 0 <= j < i && p(s[j]) ==> key(s[i]) < key(s[j]))
  }

  function FirstMin<T>(s: seq<T>, p: T -> bool, key: T -> real): (r: Option<nat>)
    ensures r.None? <==> forall j :: 0 <= j < |s| ==> !p(s[j])
    ensures r.Some? ==> IsFirstMin(s, p, key, r.value)
    decreases |s|
  {
    if s == [] then None
    else
      var r := FirstMin(s[..|s| - 1], p, key);
      var last := s[|s| - 1];
      if p(last) && (r.None? || key(last) < key(s[r.value])) then Some(|s| - 1) else r
  }

  /** The first-seen minimum is unique. */
  lemma FirstMinUnique<T>(s: seq<T>, p: T -> bool, key: T -> real, i: nat, k: nat)
    requires IsFirstMin(s, p, key, i) && IsFirstMin(s, p, key, k)
    ensures i == k
  {
  }

  /** Narrowing the filter can only raise the minimum. */
  lemma FirstMinNarrower<T>(s: seq<T>, p: T -> bool, q: T -> bool, key: T -> real)
    requires forall j :: 0 <= j < |s| && q(s[j]) ==> p(s[j])
    requires FirstMin(s, q, key).Some?
    ensures FirstMin(s, p, key).Some?
    ensures key(s[FirstMin(s, p, key).value]) <= key(s[FirstMin(s, q, key).value])
  {
    var k := FirstMin(s, q, key).value;
    assert p(s[k]);
  }

  /** One more element seen by the running minimum. */
  lemma FirstMinStep<T>(s: seq<T>, p: T -> bool, key: T -> real, i: nat)
    requires i < |s|
    ensures var r := FirstMin(s[..i], p, key);
      FirstMin(s[..i + 1], p, key) == if p(s[i]) && (r.None? || key(s[i]) < key(s[r.value])) then Some(i) else r
  {
    assert s[..i + 1][..i] == s[..i];
  }

  /** Elements past position i that fail the filter do not change the first-seen minimum. */
  lemma {:induction false} FirstMinPrefix<T>(s: seq<T>, p: T -> bool, key: T -> real, i: nat)
    requires i <= |s|
    requires forall j :: i <= j < |s| ==> !p(s[j])
    ensures FirstMin(s, p, key) == FirstMin(s[..i], p, key)
    decreases |s|
  {
    if |s| > i {
      var init := s[..|s| - 1];
      assert init[..i] == s[..i];
      FirstMinPrefix(init, p, key, i);
    } else {
      assert s[..i] == s;
    }
  }

  function FirstMatch<T>(s: seq<T>, p: T -> bool): (r: Option<nat>)
    ensures r.None? <==> forall j :: 0 <= j < |s| ==> !p(s[j])
    ensures r.Some? ==> r.value < |s| && p(s[r.value]) && forall j :: 0 <= j < r.value ==> !p(s[j])
    decreases |s|
  {
    if s == [] then None
    else
      var r := FirstMatch(s[..|s| - 1], p);
      if r.Some? then r else if p(s[|s| - 1]) then Some(|s| - 1) else None
  }

  function LastMatch<T>(s: seq<T>, p: T -> bool): (r: Option<nat>)
    ensures r.None? <==> forall j :: 0 <= j < |s| ==> !p(s[j])
    ensures r.Some? ==> r.value < |s| && p(s[r.value]) && forall j :: r.value < j < |s| ==> !p(s[j])
    decreases |s|
  {
    if s == [] then None
    else if p(s[|s| - 1]) then Some(|s| - 1)
    else LastMatch(s[..|s| - 1], p)
  }

  /** The present values of f(0), ..., f(n - 1), in order: a loop that appends when it has something. */
  function Gather<T>(f: nat -> Option<T>, n: nat): seq<T>
    decreases n
  {
    if n == 0 then [] else Gather(f, n - 1) + (if f(n - 1).Some? then [f(n - 1).value] else [])
  }

  /**
   * When every present value carries its own position as its key, the gathered values are
   * exactly the present ones: each is f at its key, the keys increase strictly, and none is missed.
   */
  lemma {:induction false} GatherExactly<T>(f: nat -> Option<T>, key: T -> nat, n: nat)
    requires forall e :: f(e).Some? ==> key(f(e).value) == e
    ensures var r := Gather(f, n);
      forall k :: 0 <= k < |r| ==> key(r[k]) < n && f(key(r[k])) == Some(r[k])
    ensures var r := Gather(f, n);
      forall k, l :: 0 <= k < l < |r| ==> key(r[k]) < key(r[l])
    ensures var r := Gather(f, n);
      forall e :: 0 <= e < n && f(e).Some? ==> exists k :: 0 <= k < |r| && r[k] == f(e).value
    decreases n
  {
    if n > 0 {
      GatherExactly(f, key, n - 1);
      var prev := Gather(f, n - 1);
      var r := Gather(f, n);
      assert forall k :: 0 <= k < |prev| ==> r[k] == prev[k];
      forall e | 0 <= e < n && f(e).Some? ensures exists k :: 0 <= k < |r| && r[k] == f(e).value {
        if e < n - 1 {
          var k :| 0 <= k < |prev| && prev[k] == f(e).value;
          assert r[k] == prev[k];
        } else {
          assert r[|prev|] == f(e).value;
        }
      }
    }
  }

  /** The element at an optional position. */
  function Pick<T>(s: seq<T>, i: Option<nat>): Option<T>
    requires i.Some? ==> i.value < |s|
  {
    if i.Some? then Some(s[i.value]) else None
  }
}

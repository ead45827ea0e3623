/**
 Iterator adaptors over sequences: `map`, `filter`, and the positions a
 filter keeps. All three are defined from the back, the way a loop that
 pushes onto a `Vec` builds its result.
 */
module Sequences {

  /** `iter().map(f).collect()`. */
  function Map<T, U>(f: T -> U, s: seq<T>): (r: seq<U>)
    ensures |r| == |s|
    ensures forall k :: 0 <= k < |s| ==> r[k] == f(s[k])
  {
    if s == [] then [] else Map(f, s[..|s| - 1]) + [f(s[|s| - 1])]
  }

  /** `iter().filter(p).collect()`: the elements satisfying `p`, in order. */
  function Filter<T>(p: T -> bool, s: seq<T>): (r: seq<T>)
    ensures |r| <= |s|
    ensures forall k :: 0 <= k < |r| ==> p(r[k])
  {
    if s == [] then []
    else Filter(p, s[..|s| - 1]) + (if p(s[|s| - 1]) then [s[|s| - 1]] else [])
  }

  /** The indices of `s` whose elements satisfy `p`, in increasing order. */
  function Positions<T>(p: T -> bool, s: seq<T>): (r: seq<nat>)
  {
    if s == [] then []
    else Positions(p, s[..|s| - 1]) + (if p(s[|s| - 1]) then [|s| - 1] else [])
  }

  /**
   `r` is the subsequence of `s` picked out by the strictly increasing
   indices `idx`, and `idx` holds exactly the indices whose elements
   satisfy `p`.
   */
  ghost predicate Selects<T>(p: T -> bool, s: seq<T>, idx: seq<nat>, r: seq<T>)
  {
    && |idx| == |r|
    && (forall k :: 0 <= k < |idx| ==> idx[k] < |s| && r[k] == s[idx[k]])
    && (forall k, l :: 0 <= k < l < |idx| ==> idx[k] < idx[l])
    && (forall j :: 0 <= j < |s| ==> (p(s[j]) <==> j in idx))
  }

  /** A filter keeps every satisfying element exactly once, in order, and nothing else. */
  lemma {:induction false} FilterPositions<T>(p: T -> bool, s: seq<T>)
    ensures Selects(p, s, Positions(p, s), Filter(p, s))
  {
    if s != [] {
      var n := |s| - 1;
      var init := s[..n];
      FilterPositions(p, init);
      var idx0, r0 := Positions(p, init), Filter(p, init);
      var idx, r := Positions(p, s), Filter(p, s);
      var tail: seq<nat>, kept: seq<T> := if p(s[n]) then [n] else [], if p(s[n]) then [s[n]] else [];
      assert idx == idx0 + tail && r == r0 + kept;
      forall k | 0 <= k < |idx0|
        ensures idx0[k] < n && r0[k] == s[idx0[k]]
      {
        assert init[idx0[k]] == s[idx0[k]];
      }
      forall j | 0 <= j < n
        ensures p(s[j]) <==> j in idx
      {
        assert s[j] == init[j];
        assert j in idx <==> j in idx0;
      }
      assert n !in idx0;
      assert Selects(p, s, idx, r);
    }
  }

  /** When no element satisfies the predicate, the filter is empty. */
  lemma {:induction false} FilterNone<T>(p: T -> bool, s: seq<T>)
    requires forall j :: 0 <= j < |s| ==> !p(s[j])
    ensures Filter(p, s) == []
  {
    if s != [] {
      var init := s[..|s| - 1];
      assert forall j :: 0 <= j < |init| ==> init[j] == s[j];
      FilterNone(p, init);
    }
  }

  /** The indices of `s` whose elements satisfy `p`. */
  function Matching<T>(p: T -> bool, s: seq<T>): set<int>
  {
    set j | 0 <= j < |s| && p(s[j])
  }

  /** The length of a filter is the number of indices whose element satisfies the predicate. */
  lemma {:induction false} FilterCount<T>(p: T -> bool, s: seq<T>)
    ensures |Filter(p, s)| == |Matching(p, s)|
  {
    if s != [] {
      var n := |s| - 1;
      var init := s[..n];
      FilterCount(p, init);
      var before := Matching(p, init);
      var all := Matching(p, s);
      var last: set<int> := if p(s[n]) then {n} else {};
      forall j | j in all ensures j in before + last {
        if j < n {
          assert s[j] == init[j];
        }
      }
      forall j | j in before + last ensures j in all {
        if j in before {
          assert s[j] == init[j];
        }
      }
      assert all == before + last;
      assert n !in before;
    }
  }
}

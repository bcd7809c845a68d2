/** Order-keeping selection from a sequence, as a list comprehension with an `if` clause does it. */
module Seqs {

  /** The elements of `s` that satisfy `p`, in their order in `s`. */
  function Filter<T>(s: seq<T>, p: T -> bool): seq<T> {
    if s == [] then []
    else Filter(s[..|s| - 1], p) + (if p(s[|s| - 1]) then [s[|s| - 1]] else [])
  }

  /** The indices in `s` of the elements `Filter(s, p)` keeps. */
  function FilterPositions<T>(s: seq<T>, p: T -> bool): seq<nat> {
    if s == [] then []
    else FilterPositions(s[..|s| - 1], p) + (if p(s[|s| - 1]) then [|s| - 1] else [])
  }

  /** The kept elements are exactly the elements of `s` that satisfy `p`. */
  lemma {:induction false} FilterMembers<T>(s: seq<T>, p: T -> bool)
    ensures forall e :: e in Filter(s, p) <==> e in s && p(e)
  {
    if s != [] {
      var init := s[..|s| - 1];
      FilterMembers(init, p);
      assert s == init + [s[|s| - 1]];
    }
  }

  /**
   * Each element satisfying `p` is kept once, in order: the j-th kept element is the
   * element of `s` at `FilterPositions[j]`, the positions strictly increase, and every
   * index of an element satisfying `p` is among them.
   */
  lemma {:induction false} FilterInOrder<T>(s: seq<T>, p: T -> bool)
    ensures var ps, fs := FilterPositions(s, p), Filter(s, p);
      && |ps| == |fs|
      && (forall j :: 0 <= j < |ps| ==> ps[j] < |s| && p(s[ps[j]]) && fs[j] == s[ps[j]])
      && (forall j, k :: 0 <= j < k < |ps| ==> ps[j] < ps[k])
      && (forall i :: 0 <= i < |s| && p(s[i]) ==> i in ps)
  {
    if s != [] {
      FilterInOrder(s[..|s| - 1], p);
    }
  }
}

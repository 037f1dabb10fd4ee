/** Sequence helpers shared by the store and the service. */
module Seqs {

  /** LINQ `Where`: the elements of `ss` that satisfy `keep`, in their original order. */
  function Where<T(!new)>(ss: seq<T>, keep: T -> bool): (r: seq<T>)
    ensures |r| <= |ss|
    ensures forall x :: x in r <==> x in ss && keep(x)
    ensures forall i :: 0 <= i < |r| ==> keep(r[i])
  {
    if ss == [] then []
    else
      var init := ss[..|ss| - 1];
      assert ss == init + [ss[|ss| - 1]];
      Where(init, keep) + (if keep(ss[|ss| - 1]) then [ss[|ss| - 1]] else [])
  }

  /** Filtering distributes over concatenation: Where keeps relative order. */
  lemma {:induction false} WhereAppend<T(!new)>(a: seq<T>, b: seq<T>, keep: T -> bool)
    ensures Where(a + b, keep) == Where(a, keep) + Where(b, keep)
  {
    if b == [] {
      assert a + b == a;
    } else {
      var init := b[..|b| - 1];
      assert (a + b)[..|a + b| - 1] == a + init;
      assert (a + b)[|a + b| - 1] == b[|b| - 1];
      WhereAppend(a, init, keep);
    }
  }

  /** Every element of `ss` is kept exactly when the filter is the identity. */
  lemma {:induction false} WhereAll<T(!new)>(ss: seq<T>, keep: T -> bool)
    requires forall i :: 0 <= i < |ss| ==> keep(ss[i])
    ensures Where(ss, keep) == ss
  {
    if ss != [] {
      var init, last := ss[..|ss| - 1], ss[|ss| - 1];
      assert forall i :: 0 <= i < |init| ==> init[i] == ss[i];
      WhereAll(init, keep);
      assert keep(last);
      assert Where(ss, keep) == init + [last];
    }
  }
}

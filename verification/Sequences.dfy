/** Sequences of sequences. */
module Sequences {

  function Concat<T>(ss: seq<seq<T>>): seq<T> { if ss == [] then [] else ss[0] + Concat(ss[1..]) }

  lemma {:induction false} ConcatAppend<T>(a: seq<seq<T>>, b: seq<seq<T>>)
    ensures Concat(a + b) == Concat(a) + Concat(b)
  {
    if a == [] {
      assert a + b == b;
    } else {
      assert (a + b)[1..] == a[1..] + b;
      ConcatAppend(a[1..], b);
    }
  }

  lemma ConcatSnoc<T>(ss: seq<seq<T>>, t: seq<T>)
    ensures Concat(ss + [t]) == Concat(ss) + t
  {
    ConcatAppend(ss, [t]);
    assert [t][1..] == [];
  }

  lemma ConcatTake<T>(ss: seq<seq<T>>, n: nat)
    requires n < |ss|
    ensures Concat(ss[..n + 1]) == Concat(ss[..n]) + ss[n]
  {
    assert ss[..n + 1] == ss[..n] + [ss[n]];
    ConcatSnoc(ss[..n], ss[n]);
  }
}

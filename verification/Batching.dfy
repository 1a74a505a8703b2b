/** Cutting a list into consecutive batches. */
module Batching {
  function Flatten<T>(s: seq<seq<T>>): seq<T> {
    if s == [] then [] else s[0] + Flatten(s[1..])
  }

  lemma {:induction false} FlattenAppend<T>(s: seq<seq<T>>, x: seq<T>)
    ensures Flatten(s + [x]) == Flatten(s) + x
  {
    if s != [] {
      assert (s + [x])[1..] == s[1..] + [x];
      FlattenAppend(s[1..], x);
    }
  }

  /** Consecutive batches of at most `size` elements. */
  function Batches<T>(s: seq<T>, size: nat): (bs: seq<seq<T>>)
    requires size >= 1
    ensures Flatten(bs) == s
    ensures forall i :: 0 <= i < |bs| ==> 1 <= |bs[i]| <= size
    ensures forall i :: 0 <= i < |bs| - 1 ==> |bs[i]| == size
    decreases |s|
  {
    if s == [] then []
    else if |s| <= size then [s]
    else [s[..size]] + Batches(s[size..], size)
  }
}

/** Order-preserving filtering of a sequence, the shape of "remove some items in place". */
module Seqs {
  import opened Wrappers

  /** The Some results of f over s, in the order of s. */
  function FilterMap<T, U>(s: seq<T>, f: T -> Option<U>): seq<U>
    decreases |s|
  {
    if |s| == 0 then []
    else
      match f(s[0])
      case Some(u) => [u] + FilterMap(s[1..], f)
      case None => FilterMap(s[1..], f)
  }

  /** The positions from i on whose result under f is Some: increasing, and exactly those. */
  function KeptFrom<T, U>(s: seq<T>, f: T -> Option<U>, i: nat): (r: seq<nat>)
    requires i <= |s|
    ensures forall k :: 0 <= k < |r| ==> i <= r[k] < |s| && f(s[r[k]]).Some?
    ensures forall k, l :: 0 <= k < l < |r| ==> r[k] < r[l]
    ensures forall j :: i <= j < |s| && f(s[j]).Some? ==> j in r
    decreases |s| - i
  {
    if i == |s| then []
    else
      var rest := KeptFrom(s, f, i + 1);
      if f(s[i]).Some? then [i] + rest else rest
  }

  /** The positions of s that filtering keeps. */
  function Kept<T, U>(s: seq<T>, f: T -> Option<U>): seq<nat>
  {
    KeptFrom(s, f, 0)
  }

  lemma {:induction false} FilterMapKeptFrom<T, U>(s: seq<T>, f: T -> Option<U>, i: nat)
    requires i <= |s|
    ensures |FilterMap(s[i..], f)| == |KeptFrom(s, f, i)|
    ensures forall k :: 0 <= k < |KeptFrom(s, f, i)| ==>
              f(s[KeptFrom(s, f, i)[k]]) == Some(FilterMap(s[i..], f)[k])
    decreases |s| - i
  {
    if i < |s| {
      FilterMapKeptFrom(s, f, i + 1);
      var kept, rest := KeptFrom(s, f, i + 1), FilterMap(s[i + 1..], f);
      assert s[i..][1..] == s[i + 1..];
      assert s[i..][0] == s[i];
      match f(s[i])
      case None =>
        assert KeptFrom(s, f, i) == kept;
        assert FilterMap(s[i..], f) == rest;
      case Some(u) =>
        var kept', out := [i] + kept, [u] + rest;
        assert KeptFrom(s, f, i) == kept';
        assert FilterMap(s[i..], f) == out;
        forall k | 0 < k < |kept'| ensures f(s[kept'[k]]) == Some(out[k]) {
          assert kept'[k] == kept[k - 1] && out[k] == rest[k - 1];
        }
    }
  }

  /**
    The filtered sequence lists, in order, the results at the kept positions: item k of
    the output is what f made of the k-th kept item of the input.
   */
  lemma FilterMapKept<T, U>(s: seq<T>, f: T -> Option<U>)
    ensures |FilterMap(s, f)| == |Kept(s, f)|
    ensures forall k :: 0 <= k < |Kept(s, f)| ==> f(s[Kept(s, f)[k]]) == Some(FilterMap(s, f)[k])
  {
    FilterMapKeptFrom(s, f, 0);
    assert s[0..] == s;
  }
}

/** What several of the programs share. */
module Basics {
  datatype Option<+T> = None | Some(value: T)

  /** The longest spelling of a path, with its terminator. */
  const PATH_MAX := 4096

  /** Removal from a table: the last entry takes the place of the removed one. */
  function SwapRemove<T>(s: seq<T>, i: nat): seq<T>
    requires i < |s|
  {
    s[i := s[|s| - 1]][..|s| - 1]
  }

  lemma SwapRemoveElements<T>(s: seq<T>, i: nat)
    requires i < |s|
    ensures |SwapRemove(s, i)| == |s| - 1
    ensures forall j | 0 <= j < |s| - 1 :: SwapRemove(s, i)[j] == if j == i then s[|s| - 1] else s[j]
  {
  }

  function Sum(xs: seq<int>): int {
    if xs == [] then 0 else xs[0] + Sum(xs[1..])
  }

  /** The total of a table, as a loop computes it. */
  method Total(xs: array<int>) returns (total: int)
    ensures total == Sum(xs[..])
  {
    total := 0;
    var i := 0;
    while i < xs.Length
      invariant i <= xs.Length && total + Sum(xs[i..]) == Sum(xs[..])
    {
      assert xs[i..][1..] == xs[i + 1..];
      total := total + xs[i];
      i := i + 1;
    }
    assert xs[..][0..] == xs[..];
  }
}

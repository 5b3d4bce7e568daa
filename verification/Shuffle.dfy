/** The shop's in-place shuffle: which outcomes it has, and how often. */
module Shuffle {

  function Swap(s: seq<int>, i: nat, j: nat): seq<int>
    requires i < |s| && j < |s|
  {
    s[i := s[j]][j := s[i]]
  }

  /** One random choice for each position, that for position `i` being at most `i`. (The one for
      position 0 is no choice and the loop never makes it.) */
  predicate Choices(js: seq<nat>, n: nat) {
    |js| == n && forall i | 0 <= i < n :: js[i] <= i
  }

  /** The loop's iterations for positions `i`, `i - 1`, ..., 1. */
  function ShuffleFrom(s: seq<int>, js: seq<nat>, i: nat): (r: seq<int>)
    requires Choices(js, |s|) && (i < |s| || i == 0)
    ensures |r| == |s|
    decreases i
  {
    if i == 0 then s else ShuffleFrom(Swap(s, i, js[i]), js, i - 1)
  }

  function Shuffled(s: seq<int>, js: seq<nat>): (r: seq<int>)
    requires Choices(js, |s|)
    ensures |r| == |s|
  {
    ShuffleFrom(s, js, if s == [] then 0 else |s| - 1)
  }

  predicate Distinct(s: seq<int>) {
    forall i, j | 0 <= i < j < |s| :: s[i] != s[j]
  }

  /** `now` is what the choices made so far, for the positions above `i`, have led to: whatever the
      remaining choices, they take it to the outcome of the whole sequence. */
  ghost predicate OnTheWay(s: seq<int>, now: seq<int>, js: seq<nat>, i: nat)
    requires i < |s| == |now| == |js|
  {
    forall rest | Choices(rest, |s|) && js[i + 1..] == rest[i + 1..] ::
      Shuffled(s, rest) == ShuffleFrom(now, rest, i)
  }

  /** shuffle, rand() being arbitrary. */
  method ShuffleInPlace(shop: array<int>) returns (ghost js: seq<nat>)
    modifies shop
    ensures Choices(js, shop.Length) && shop[..] == Shuffled(old(shop[..]), js)
  {
    hide OnTheWay, ShuffleFrom;
    ghost var n, s := shop.Length, shop[..];
    js := seq(n, _ => 0);
    ghost var done: seq<seq<int>> := [];
    var i := shop.Length - 1;
    if i >= 0 {
      Unchosen(s, js);
    }
    while i > 0
      invariant -1 <= i < n && (i < 0 <==> n == 0) && Choices(js, n)
      invariant forall k | 0 <= k <= i :: js[k] == 0
      invariant i >= 0 ==> OnTheWay(s, shop[..], js, i)
    {
      var r: nat :| true;
      var j := r % (i + 1);
      ghost var before := shop[..];
      shop[i], shop[j] := shop[j], shop[i];
      assert shop[..] == Swap(before, i, j);
      NextChoice(s, before, js, i, j);
      js := js[i := j];
      i := i - 1;
    }
    AllChosen(s, shop[..], js);
  }

  lemma Unchosen(s: seq<int>, js: seq<nat>)
    requires 0 < |s| == |js|
    ensures OnTheWay(s, s, js, |s| - 1)
  {
  }

  lemma AllChosen(s: seq<int>, now: seq<int>, js: seq<nat>)
    requires Choices(js, |s|) && |now| == |s| && (s != [] ==> OnTheWay(s, now, js, 0))
    ensures now == Shuffled(s, js)
  {
  }

  lemma NextChoice(s: seq<int>, now: seq<int>, js: seq<nat>, i: nat, j: nat)
    requires 0 < i < |s| == |now| && j <= i && Choices(js, |s|) && OnTheWay(s, now, js, i)
    ensures |Swap(now, i, j)| == |s| && OnTheWay(s, Swap(now, i, j), js[i := j], i - 1)
  {
    hide Shuffled;
    var js' := js[i := j];
    forall rest | Choices(rest, |s|) && js'[i..] == rest[i..]
      ensures Shuffled(s, rest) == ShuffleFrom(Swap(now, i, j), rest, i - 1)
    {
      assert rest[i] == js'[i..][0] == j;
      assert js[i + 1..] == js'[i..][1..] == rest[i + 1..];
    }
  }

  lemma SwapPermutes(s: seq<int>, i: nat, j: nat)
    requires i < |s| && j < |s|
    ensures multiset(Swap(s, i, j)) == multiset(s) && |Swap(s, i, j)| == |s|
    ensures Swap(s, i, j)[i] == s[j]
    ensures forall k | 0 <= k < |s| && k != i && k != j :: Swap(s, i, j)[k] == s[k]
  {
  }

  lemma {:induction false} ShuffleFromPermutes(s: seq<int>, js: seq<nat>, i: nat)
    requires Choices(js, |s|) && (i < |s| || i == 0)
    ensures multiset(ShuffleFrom(s, js, i)) == multiset(s)
    ensures forall k | i < k < |s| :: ShuffleFrom(s, js, i)[k] == s[k]
    decreases i
  {
    if i > 0 {
      SwapPermutes(s, i, js[i]);
      ShuffleFromPermutes(Swap(s, i, js[i]), js, i - 1);
    }
  }

  /** Every outcome is a permutation of what was there. */
  lemma ShufflePermutes(s: seq<int>, js: seq<nat>)
    requires Choices(js, |s|)
    ensures multiset(Shuffled(s, js)) == multiset(s)
  {
    ShuffleFromPermutes(s, js, if s == [] then 0 else |s| - 1);
  }

  lemma SwapKeepsDistinct(s: seq<int>, i: nat, j: nat)
    requires i < |s| && j < |s| && Distinct(s)
    ensures Distinct(Swap(s, i, j))
  {
  }

  /** Position `i` is settled by its own choice: it receives what stood at the chosen place. */
  lemma {:induction false} SettledByChoice(s: seq<int>, js: seq<nat>, i: nat)
    requires Choices(js, |s|) && 0 < i < |s|
    ensures ShuffleFrom(s, js, i)[i] == s[js[i]]
  {
    var u := Swap(s, i, js[i]);
    assert u[i] == s[js[i]];
    assert ShuffleFrom(s, js, i) == ShuffleFrom(u, js, i - 1);
    ShuffleFromPermutes(u, js, i - 1);
  }

  /** Different choices never lead to the same outcome. */
  lemma {:induction false} ChoicesAreRecovered(s: seq<int>, js: seq<nat>, ks: seq<nat>, i: nat)
    requires Distinct(s) && Choices(js, |s|) && Choices(ks, |s|) && (i < |s| || i == 0)
    requires ShuffleFrom(s, js, i) == ShuffleFrom(s, ks, i)
    ensures forall k | 0 < k <= i :: js[k] == ks[k]
    decreases i
  {
    if i > 0 {
      SettledByChoice(s, js, i);
      SettledByChoice(s, ks, i);
      SwapKeepsDistinct(s, i, js[i]);
      ChoicesAreRecovered(Swap(s, i, js[i]), js, ks, i - 1);
    }
  }

  lemma {:induction false} SamePartSameElements(s: seq<int>, t: seq<int>, i: nat)
    requires |s| == |t| && i < |s| && multiset(s) == multiset(t) && Distinct(s)
    requires forall k | i < k < |s| :: s[k] == t[k]
    ensures exists j | 0 <= j <= i :: s[j] == t[i]
  {
    assert t[i] in multiset(t) && t[i] in multiset(s);
    var j :| 0 <= j < |s| && s[j] == t[i];
    if j > i {
      assert t[j] == t[i];
      SameTwice(t, i, j);
      DistinctOnce(s, t[i]);
      assert false;
    }
  }

  lemma SameTwice(t: seq<int>, i: nat, j: nat)
    requires i < j < |t| && t[i] == t[j]
    ensures multiset(t)[t[i]] >= 2
  {
    assert t == t[..j] + [t[j]] + t[j + 1..];
    assert t[..j] == t[..i] + [t[i]] + t[i + 1..j];
  }

  lemma {:induction false} DistinctOnce(s: seq<int>, x: int)
    requires Distinct(s)
    ensures multiset(s)[x] <= 1
  {
    if s != [] {
      assert s == [s[0]] + s[1..];
      DistinctOnce(s[1..], x);
      assert s[0] !in s[1..];
    }
  }

  /** Every permutation is reached. */
  lemma {:induction false} PermutationIsReached(s: seq<int>, t: seq<int>, i: nat) returns (js: seq<nat>)
    requires |s| == |t| && (i < |s| || i == 0) && multiset(s) == multiset(t) && Distinct(s)
    requires forall k | i < k < |s| :: s[k] == t[k]
    ensures Choices(js, |s|) && ShuffleFrom(s, js, i) == t
    decreases i
  {
    hide Swap;
    if i == 0 {
      js := seq(|s|, _ => 0);
      if s != [] {
        SamePartSameElements(s, t, 0);
      }
    } else {
      SamePartSameElements(s, t, i);
      var j :| 0 <= j <= i && s[j] == t[i];
      SwapPermutes(s, i, j);
      SwapKeepsDistinct(s, i, j);
      var ks := PermutationIsReached(Swap(s, i, j), t, i - 1);
      js := OneMoreChoice(s, t, ks, i, j);
    }
  }

  lemma OneMoreChoice(s: seq<int>, t: seq<int>, ks: seq<nat>, i: nat, j: nat) returns (js: seq<nat>)
    requires 0 < i < |s| && j <= i && |Swap(s, i, j)| == |s|
    requires Choices(ks, |s|) && ShuffleFrom(Swap(s, i, j), ks, i - 1) == t
    ensures Choices(js, |s|) && ShuffleFrom(s, js, i) == t
  {
    hide Swap;
    js := ks[i := j];
    EarlierChoicesDoNotMatter(Swap(s, i, j), ks, js, i - 1);
  }

  lemma {:induction false} EarlierChoicesDoNotMatter(s: seq<int>, js: seq<nat>, ks: seq<nat>, i: nat)
    requires Choices(js, |s|) && Choices(ks, |s|) && (i < |s| || i == 0)
    requires forall k | 0 < k <= i :: js[k] == ks[k]
    ensures ShuffleFrom(s, js, i) == ShuffleFrom(s, ks, i)
    decreases i
  {
    if i > 0 {
      EarlierChoicesDoNotMatter(Swap(s, i, js[i]), js, ks, i - 1);
    }
  }

  /** For distinct products the shuffle is a bijection: the outcomes are the permutations, and each
      comes from exactly one sequence of choices. */
  lemma EachPermutationOnce(s: seq<int>, t: seq<int>)
    requires Distinct(s)
    ensures (exists js :: Choices(js, |s|) && Shuffled(s, js) == t) <==> multiset(t) == multiset(s)
    ensures forall js, ks | Choices(js, |s|) && Choices(ks, |s|) && Shuffled(s, js) == t == Shuffled(s, ks) :: js == ks
  {
    var last: nat := if s == [] then 0 else |s| - 1;
    if js :| Choices(js, |s|) && Shuffled(s, js) == t {
      ShufflePermutes(s, js);
    }
    if multiset(t) == multiset(s) {
      assert |t| == |multiset(t)| == |multiset(s)| == |s|;
      var js := PermutationIsReached(s, t, last);
      assert Shuffled(s, js) == t;
    }
    forall js, ks | Choices(js, |s|) && Choices(ks, |s|) && Shuffled(s, js) == t == Shuffled(s, ks) ensures js == ks {
      ChoicesAreRecovered(s, js, ks, last);
    }
  }
}

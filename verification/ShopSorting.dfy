/** Every swap brings the shelves closer to order. */
module ShopSorting {
  import opened Shop
  import opened ShopResults

  ghost function Pairs(n: nat): set<(nat, nat)> {
    set j, i | 0 <= j < n && 0 <= i < j :: (i, j)
  }

  ghost function InvertedPairs(s: seq<int>): set<(nat, nat)> {
    set p | p in Pairs(|s|) && s[p.0] > s[p.1]
  }

  ghost function Inversions(s: seq<int>): nat {
    |InvertedPairs(s)|
  }

  // ---------- how many there can be ----------

  ghost function Column(n: nat, j: nat): set<(nat, nat)> {
    set i: nat | 0 <= i < n :: (i, j)
  }

  lemma {:induction false} PairsCount(n: nat)
    ensures 2 * |Pairs(n)| == n * (n - 1)
  {
    if n > 0 {
      PairsByColumn(n);
      ColumnCount(n - 1, n - 1);
      PairsCount(n - 1);
      calc {
        2 * |Pairs(n)|;
        2 * |Pairs(n - 1)| + 2 * (n - 1);
        (n - 1) * (n - 2) + 2 * (n - 1);
        n * (n - 1);
      }
    } else {
      assert Pairs(n) == {};
    }
  }

  lemma PairsByColumn(n: nat)
    requires n > 0
    ensures |Pairs(n)| == |Pairs(n - 1)| + |Column(n - 1, n - 1)|
  {
    forall p: (nat, nat) ensures p in Pairs(n) <==> p in Pairs(n - 1) || p in Column(n - 1, n - 1) {
      assert p == (p.0, p.1);
    }
    assert Pairs(n) == Pairs(n - 1) + Column(n - 1, n - 1);
    assert Pairs(n - 1) !! Column(n - 1, n - 1);
  }

  lemma {:induction false} ColumnCount(n: nat, j: nat)
    ensures |Column(n, j)| == n
  {
    if n > 0 {
      assert Column(n, j) == Column(n - 1, j) + {(n - 1, j)};
      ColumnCount(n - 1, j);
    } else {
      assert Column(n, j) == {};
    }
  }

  lemma {:induction false} SubsetIsSmaller<T>(a: set<T>, b: set<T>)
    requires a <= b
    ensures |a| <= |b|
  {
    assert b == a + (b - a);
  }

  lemma AtMostAllPairs(s: seq<int>)
    ensures 2 * Inversions(s) <= |s| * (|s| - 1)
  {
    SubsetIsSmaller(InvertedPairs(s), Pairs(|s|));
    PairsCount(|s|);
  }

  // ---------- what a swap does ----------

  function Other(a: nat, b: nat, k: nat): nat {
    if k == a then b else if k == b then a else k
  }

  /** Where an inverted pair after the swap of `a` and `b` was inverted before. */
  function Before(a: nat, b: nat, p: (nat, nat)): (nat, nat) {
    if a < p.0 < b || a < p.1 < b then p else (Other(a, b, p.0), Other(a, b, p.1))
  }

  lemma InvertedBefore(s: seq<int>, a: nat, b: nat, p: (nat, nat))
    requires a < b < |s| && s[a] > s[b] && p in InvertedPairs(Shuffle.Swap(s, a, b))
    ensures Before(a, b, p) in InvertedPairs(s) && Before(a, b, p) != (a, b)
  {
  }

  lemma {:induction false} Injected<T>(from: set<T>, to: set<T>, f: T -> T)
    requires forall x | x in from :: f(x) in to
    requires forall x, y | x in from && y in from && f(x) == f(y) :: x == y
    ensures |from| <= |to|
    decreases |from|
  {
    if x :| x in from {
      Injected(from - {x}, to - {f(x)}, f);
    }
  }

  /** Swapping an inverted pair, however far apart, leaves fewer inversions. */
  lemma SwapReduces(s: seq<int>, a: nat, b: nat)
    requires a < b < |s| && s[a] > s[b]
    ensures Inversions(Shuffle.Swap(s, a, b)) < Inversions(s)
  {
    var now, was := InvertedPairs(Shuffle.Swap(s, a, b)), InvertedPairs(s);
    forall p | p in now ensures Before(a, b, p) in was - {(a, b)} {
      InvertedBefore(s, a, b, p);
    }
    Injected(now, was - {(a, b)}, p => Before(a, b, p));
    assert (a, b) in was;
  }

  // ---------- sorted ----------

  lemma {:induction false} SortedProducts(s: seq<int>, n: nat)
    requires |s| == n && multiset(s) == multiset(Products(n))
    requires forall a, b | 0 <= a < b < n :: s[a] <= s[b]
    ensures s == Products(n)
  {
    if n > 0 {
      var last := Products(n)[n - 1];
      assert Products(n) == Products(n - 1) + [n];
      assert n in multiset(s);
      var k :| 0 <= k < n && s[k] == n;
      assert s[n - 1] in multiset(Products(n));
      assert s[n - 1] == n;
      assert s == s[..n - 1] + [n];
      assert multiset(s[..n - 1]) == multiset(s) - multiset{n};
      SortedProducts(s[..n - 1], n - 1);
    }
  }

  /** A swap is possible exactly while the shelves are not in order. */
  lemma NoSwapIffSorted(s: seq<int>)
    requires multiset(s) == multiset(Products(|s|))
    ensures (forall a, b | 0 <= a < b < |s| :: !(s[a] > s[b])) <==> s == Products(|s|)
    ensures Inversions(s) == 0 <==> s == Products(|s|)
  {
    if forall a, b | 0 <= a < b < |s| :: !(s[a] > s[b]) {
      SortedProducts(s, |s|);
      assert InvertedPairs(s) == {};
    } else {
      var a: nat, b: nat :| a < b < |s| && s[a] > s[b];
      assert (a, b) in InvertedPairs(s);
    }
  }

  /** A worker that holds both shelves swaps exactly if their products are out of order; so once
      the stock is in order nobody swaps again. */
  lemma BothDecides(s: State, i: nat, t: State)
    requires Inv(s) && i < |s.workers| && s.workers[i].Both? && WorkerSteps(s, i, t)
    ensures var p := s.workers[i];
            && (t.workers[i].Store1? <==> Stock(s)[p.a] > Stock(s)[p.b])
            && (Stock(s) == Products(|s.shelves|) ==> t.workers[i] == Rel1(p.a, p.b))
  {
    hide Complete, Roster, FlagOwner, Reads;
    var p := s.workers[i];
    assert HoldsShelf(p, p.a) && HoldsShelf(p, p.b);
    assert s.owner[p.a] == ByWorker(i) && s.owner[p.b] == ByWorker(i);
  }

  // ---------- runs ----------

  ghost predicate SwapStep(s: State, t: State) {
    exists i | 0 <= i < |s.workers| == |t.workers| :: s.workers[i].Store1? && t.workers[i].Store2?
  }

  ghost predicate Shuffles(s: State, t: State) {
    s.signal == Holding(Mix) && t.signal != s.signal
  }

  ghost function Swaps(run: seq<State>): nat {
    if |run| < 2 then 0 else Swaps(run[..|run| - 1]) + if SwapStep(run[|run| - 2], run[|run| - 1]) then 1 else 0
  }

  lemma StepReduces(s: State, t: State)
    requires Inv(s) && Inv(t) && Next(s, t) && !Shuffles(s, t)
    ensures Inversions(Stock(t)) + (if SwapStep(s, t) then 1 else 0) <= Inversions(Stock(s))
  {
    hide Inversions, Stock, Owners, Reads, FlagOwner, Roster, Complete, WorkerSteps, SignalSteps, CancelActs, SwapStep, Shuffles;
    OwnersRange(s);
    OwnersRange(t);
    var e :| Takes(s, e, t);
    match e {
      case Ordinary(i) =>
        WorkerStock(s, i, t);
        OnlyOneMoves(s, i, t);
        if s.workers[i].Store1? {
          SwapReduces(Stock(s), s.workers[i].a, s.workers[i].b);
        }
      case Cancel(i) =>
        CancelSwapsNothing(s, i, t);
      case Signal =>
        SignalStock(s, t);
        SignalLeavesWorkers(s, t);
    }
  }

  lemma CancelSwapsNothing(s: State, i: nat, t: State)
    requires Inv(s) && i < |s.workers| && CancelActs(s, i, t)
    ensures Range(t.owner, |t.workers|) && |t.owner| == |t.shelves| && Stock(t) == Stock(s) && !SwapStep(s, t)
  {
    hide Stock, Owners, Reads, FlagOwner, Roster, Complete;
    OwnersRange(s);
    SameStock(s, i, t.workers[i], s.owner, t);
    assert forall j | 0 <= j < |s.workers| && j != i :: t.workers[j] == s.workers[j];
  }

  lemma OnlyOneMoves(s: State, i: nat, t: State)
    requires Sane(s) && i < |s.workers| && WorkerSteps(s, i, t)
    ensures SwapStep(s, t) <==> s.workers[i].Store1?
    ensures s.workers[i].Store1? ==> s.workers[i].a < s.workers[i].b < |s.shelves|
  {
    assert s.workers[i].Store1? ==> t.workers[i].Store2?;
    assert forall j | 0 <= j < |s.workers| && j != i :: t.workers[j] == s.workers[j];
  }

  lemma SignalLeavesWorkers(s: State, t: State)
    requires Sane(s) && SignalSteps(s, t)
    ensures t.workers == s.workers && !SwapStep(s, t)
    ensures s.signal == Holding(Mix) ==> Shuffles(s, t)
  {
    hide Shuffle.Shuffled;
  }

  /** Between two shuffles at most N(N-1)/2 swaps happen, whatever the interleaving. */
  lemma {:induction false} SwapsAreBounded(run: seq<State>)
    requires IsRun(run) && Inv(run[0])
    requires forall i | 0 <= i < |run| - 1 :: !Shuffles(run[i], run[i + 1])
    ensures Inv(run[|run| - 1])
    ensures Swaps(run) + Inversions(Stock(run[|run| - 1])) <= Inversions(Stock(run[0]))
    ensures 2 * Swaps(run) <= |run[0].shelves| * (|run[0].shelves| - 1)
    decreases |run|
  {
    hide Inv, Next, Inversions, Stock, SwapStep, Shuffles;
    RunKeepsInv(run, |run| - 1);
    StockDefined(run[0]);
    StockDefined(run[|run| - 1]);
    if |run| > 1 {
      var most := run[..|run| - 1];
      forall i | 0 <= i < |most| - 1 ensures Next(most[i], most[i + 1]) && !Shuffles(most[i], most[i + 1]) {
        assert Next(run[i], run[i + 1]);
      }
      SwapsAreBounded(most);
      assert Next(run[|run| - 2], run[|run| - 2 + 1]) && !Shuffles(run[|run| - 2], run[|run| - 2 + 1]);
      StepReduces(run[|run| - 2], run[|run| - 1]);
    }
    AtMostAllPairs(Stock(run[0]));
  }

  lemma StockDefined(s: State)
    requires Inv(s)
    ensures Range(s.owner, |s.workers|) && |s.shelves| == |s.owner|
  {
  }
}

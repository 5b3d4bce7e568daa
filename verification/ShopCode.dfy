/** The shop's code on its arrays, against the state machine's steps. */
module ShopCode {
  import opened Basics
  import opened Shop
  import opened ShopResults
  import opened ShopSorting

  /** The critical section of work, run alone on its two shelves: the three steps from `Both`. */
  method SortPair(shelves: array<int>, a: nat, b: nat) returns (swapped: bool)
    requires a < b < shelves.Length
    modifies shelves
    ensures swapped <==> old(shelves[a]) > old(shelves[b])
    ensures shelves[..] == if swapped then Shuffle.Swap(old(shelves[..]), a, b) else old(shelves[..])
    ensures shelves[a] <= shelves[b]
    ensures swapped ==> Inversions(shelves[..]) < Inversions(old(shelves[..]))
  {
    ghost var before := shelves[..];
    if shelves[a] > shelves[b] {
      var x, y := shelves[a], shelves[b];
      shelves[a] := y;
      shelves[b] := x;
      assert shelves[..] == Shuffle.Swap(before, a, b);
      SwapReduces(before, a, b);
      return true;
    }
    return false;
  }

  lemma SectionIsThreeSteps(s: State, i: nat, t: State, u: State, v: State)
    requires Inv(s) && i < |s.workers| && s.workers[i].Both?
    requires WorkerSteps(s, i, t) && Inv(t) && |t.workers| == |s.workers| && t.workers[i].Store1?
    requires WorkerSteps(t, i, u) && Inv(u) && |u.workers| == |s.workers| && WorkerSteps(u, i, v)
    ensures v.shelves == Shuffle.Swap(s.shelves, s.workers[i].a, s.workers[i].b)
  {
    hide Owners, FlagOwner, Reads, Complete, Roster;
  }

  /** active_indices and active_workers of the signal thread. */
  class ActiveWorkers {
    const indices: array<nat>
    var count: nat

    ghost predicate Valid()
      reads this
    {
      count <= indices.Length
    }

    ghost function Listed(): seq<nat>
      requires Valid()
      reads this, indices
    {
      indices[..count]
    }

    constructor (n: nat)
      ensures Valid() && Listed() == seq(n, i => i) && fresh(indices)
    {
      indices := new nat[n];
      count := n;
      new;
      var i := 0;
      while i < n
        invariant i <= n && count == n == indices.Length
        invariant forall j | 0 <= j < i :: indices[j] == j
      {
        indices[i] := i;
        i := i + 1;
      }
      assert indices[..count] == seq(n, i => i);
    }

    /** SIGUSR2: the worker to cancel, and whether it was the last one. */
    method CancelOne(random: nat) returns (worker: nat, last: bool)
      requires Valid() && count > 0
      modifies this`count, indices
      ensures Valid()
      ensures var was, id := old(Listed()), random % old(count);
              worker == was[id] && Listed() == SwapRemove(was, id)
      ensures last <==> Listed() == []
      ensures forall cancelled: seq<bool> | Roster(cancelled, old(Listed())) ::
                worker < |cancelled| && !cancelled[worker] && Roster(cancelled[worker := true], Listed())
    {
      ghost var was := Listed();
      var id := random % count;
      worker := indices[id];
      indices[id] := indices[count - 1];
      count := count - 1;
      last := count == 0;
      assert Listed() == SwapRemove(was, id);
      forall cancelled: seq<bool> | Roster(cancelled, was)
        ensures worker < |cancelled| && !cancelled[worker] && Roster(cancelled[worker := true], Listed())
      {
        LastTakesSlot(cancelled, was, id);
      }
    }
  }
}

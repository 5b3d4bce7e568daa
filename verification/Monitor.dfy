/** The monitor as the program runs it: tables updated in place, events handled one by one.
    Each method is proved against the actions of the state machine in `Mirror`. */
module Monitor {
  import opened Basics
  import opened Paths
  import opened Mirror

  datatype Watch = Watch(wd: nat, path: Path)

  /** The records as a map, later records of a descriptor hiding earlier ones. */
  function MapOf(ws: seq<Watch>): map<nat, Path> {
    if ws == [] then map[] else MapOf(ws[..|ws| - 1])[ws[|ws| - 1].wd := ws[|ws| - 1].path]
  }

  ghost predicate Distinct(ws: seq<Watch>) {
    forall i, j | 0 <= i < j < |ws| :: ws[i].wd != ws[j].wd
  }

  lemma {:induction false} MapOfAt(ws: seq<Watch>)
    requires Distinct(ws)
    ensures forall i | 0 <= i < |ws| :: ws[i].wd in MapOf(ws) && MapOf(ws)[ws[i].wd] == ws[i].path
    ensures forall w | w in MapOf(ws) :: exists i | 0 <= i < |ws| :: ws[i].wd == w
  {
    if ws != [] {
      MapOfAt(ws[..|ws| - 1]);
      forall w | w in MapOf(ws) ensures exists i | 0 <= i < |ws| :: ws[i].wd == w {
        if w != ws[|ws| - 1].wd {
          var i :| 0 <= i < |ws[..|ws| - 1]| && ws[..|ws| - 1][i].wd == w;
          assert ws[i].wd == w;
        }
      }
    }
  }

  lemma SameRecordsSameMap(ws: seq<Watch>, m: map<nat, Path>)
    requires Distinct(ws)
    requires forall i | 0 <= i < |ws| :: ws[i].wd in m && m[ws[i].wd] == ws[i].path
    requires forall w | w in m :: exists i | 0 <= i < |ws| :: ws[i].wd == w
    ensures MapOf(ws) == m
  {
    MapOfAt(ws);
    forall w | w in MapOf(ws) ensures w in m && m[w] == MapOf(ws)[w] {
      var i :| 0 <= i < |ws| && ws[i].wd == w;
    }
    forall w | w in m ensures w in MapOf(ws) {
      var i :| 0 <= i < |ws| && ws[i].wd == w;
    }
  }

  /** The kernel's side of inotify: which directory each descriptor follows. */
  class Inotify {
    var watched: map<nat, Path>
    var next: nat

    constructor ()
      ensures watched == map[]
    {
      watched, next := map[], 1;
    }

    /** inotify_add_watch: a directory watched already keeps its descriptor. */
    method AddWatch(p: Path) returns (wd: nat)
      requires forall w | w in watched :: w < next
      modifies this
      ensures forall w | w in watched :: w < next
      ensures if exists w | w in old(watched) :: old(watched)[w] == p
              then wd in old(watched) && old(watched)[wd] == p && watched == old(watched) && next == old(next)
              else wd == old(next) && watched == old(watched)[wd := p] && next == wd + 1
    {
      if w :| w in watched && watched[w] == p {
        return w;
      }
      wd := next;
      watched := watched[wd := p];
      next := next + 1;
    }

    method RmWatch(wd: nat)
      modifies this
      ensures watched == old(watched) - {wd} && next == old(next)
    {
      watched := watched - {wd};
    }
  }

  class WatchMap {
    var watches: seq<Watch>

    constructor ()
      ensures watches == []
    {
      watches := [];
    }

    function Table(): map<nat, Path>
      reads this
    {
      MapOf(watches)
    }

    method Add(wd: nat, path: Path)
      modifies this
      ensures watches == old(watches) + [Watch(wd, path)]
    {
      watches := watches + [Watch(wd, path)];
    }

    /** watch_find: the first record with a descriptor. */
    method Find(wd: nat) returns (r: Option<Path>)
      ensures r.Some? ==> exists i | 0 <= i < |watches| ::
                watches[i] == Watch(wd, r.value) && forall j | 0 <= j < i :: watches[j].wd != wd
      ensures r.None? ==> forall i | 0 <= i < |watches| :: watches[i].wd != wd
      ensures Distinct(watches) ==> r == if wd in Table() then Some(Table()[wd]) else None
    {
      var i := 0;
      while i < |watches|
        invariant 0 <= i <= |watches|
        invariant forall j | 0 <= j < i :: watches[j].wd != wd
      {
        if watches[i].wd == wd {
          FindMeansLookup(watches, i);
          return Some(watches[i].path);
        }
        i := i + 1;
      }
      NotFound(watches, wd);
      return None;
    }

    /** watch_remove: the last record takes the place of the removed one. */
    method Remove(wd: nat)
      modifies this
      ensures forall i | 0 <= i < |old(watches)| && old(watches)[i].wd == wd
                         && (forall j | 0 <= j < i :: old(watches)[j].wd != wd) ::
                watches == SwapRemove(old(watches), i)
      ensures (forall i | 0 <= i < |old(watches)| :: old(watches)[i].wd != wd) ==> watches == old(watches)
      ensures Distinct(old(watches)) ==> Distinct(watches) && Table() == old(Table()) - {wd}
    {
      var i := 0;
      while i < |watches|
        invariant 0 <= i <= |watches| && watches == old(watches)
        invariant forall j | 0 <= j < i :: watches[j].wd != wd
      {
        if watches[i].wd == wd {
          SwapRemoveDrops(watches, i);
          watches := SwapRemove(watches, i);
          return;
        }
        i := i + 1;
      }
      NotFound(watches, wd);
    }

    /** watch_update_prefix, record by record. */
    method UpdatePrefix(oldPath: Path, newPath: Path)
      modifies this
      ensures |watches| == |old(watches)|
      ensures forall i | 0 <= i < |watches| ::
                watches[i] == Watch(old(watches)[i].wd, Rebase(old(watches)[i].path, oldPath, newPath))
      ensures Distinct(old(watches)) ==> Distinct(watches) && Table() == RebaseTable(old(Table()), oldPath, newPath)
    {
      var i := 0;
      while i < |watches|
        invariant 0 <= i <= |watches| == |old(watches)|
        invariant forall j | 0 <= j < i ::
                    watches[j] == Watch(old(watches)[j].wd, Rebase(old(watches)[j].path, oldPath, newPath))
        invariant forall j | i <= j < |watches| :: watches[j] == old(watches)[j]
      {
        if oldPath <= watches[i].path {
          watches := watches[i := watches[i].(path := newPath + watches[i].path[|oldPath|..])];
        }
        i := i + 1;
      }
      RebasedRecords(old(watches), watches, oldPath, newPath);
    }

    /** watch_remove_subtree: a removed record's place is looked at again, as another record has
        taken it. Every record outside the subtree stays, every one inside goes. */
    method RemoveSubtree(ino: Inotify, p: Path)
      requires Distinct(watches)
      modifies this, ino
      ensures Distinct(watches)
      ensures Table() == (map w | w in old(Table()) && !(p <= old(Table())[w]) :: old(Table())[w])
      ensures ino.watched == (map w | w in old(ino.watched) && !(w in old(Table()) && p <= old(Table())[w]) :: old(ino.watched)[w])
      ensures ino.next == old(ino.next)
    {
      ghost var table, kernel := Table(), ino.watched;
      ghost var gone: set<nat> := {};
      var i := 0;
      while i < |watches|
        invariant 0 <= i <= |watches| && Distinct(watches)
        invariant forall w | w in gone :: w in table && p <= table[w]
        invariant Table() == table - gone && ino.watched == kernel - gone && ino.next == old(ino.next)
        invariant forall j | 0 <= j < i :: !(p <= watches[j].path)
        decreases |watches| - i, |watches|
      {
        RecordGoes(watches, table, gone, i);
        if p <= watches[i].path {
          var wd := watches[i].wd;
          ino.RmWatch(wd);
          Remove(wd);
          assert kernel - gone - {wd} == kernel - (gone + {wd});
          gone := gone + {wd};
        } else {
          i := i + 1;
        }
      }
      SubtreeGone(watches, table, kernel, gone, p);
    }
  }

  lemma SubtreeGone(ws: seq<Watch>, table: map<nat, Path>, kernel: map<nat, Path>, gone: set<nat>, p: Path)
    requires Distinct(ws) && MapOf(ws) == table - gone
    requires forall w | w in gone :: w in table && p <= table[w]
    requires forall j | 0 <= j < |ws| :: !(p <= ws[j].path)
    ensures table - gone == (map w | w in table && !(p <= table[w]) :: table[w])
    ensures kernel - gone == (map w | w in kernel && !(w in table && p <= table[w]) :: kernel[w])
  {
    MapOfAt(ws);
    forall w | w in table && w !in gone ensures !(p <= table[w]) {
      assert w in MapOf(ws);
      var j :| 0 <= j < |ws| && ws[j].wd == w;
    }
  }

  /** One removal of watch_remove_subtree: a record below `p` goes. */
  lemma RecordGoes(ws: seq<Watch>, table: map<nat, Path>, gone: set<nat>, i: nat)
    requires Distinct(ws) && MapOf(ws) == table - gone && i < |ws|
    ensures ws[i].wd in table && ws[i].wd !in gone && table[ws[i].wd] == ws[i].path
    ensures MapOf(ws) - {ws[i].wd} == table - (gone + {ws[i].wd})
    ensures forall j | 0 <= j < i :: ws[j].wd != ws[i].wd
    ensures |SwapRemove(ws, i)| == |ws| - 1
    ensures forall j | 0 <= j < i :: SwapRemove(ws, i)[j] == ws[j]
  {
    MapOfAt(ws);
  }

  lemma FindMeansLookup(ws: seq<Watch>, i: nat)
    requires i < |ws|
    ensures Distinct(ws) ==> ws[i].wd in MapOf(ws) && MapOf(ws)[ws[i].wd] == ws[i].path
  {
    if Distinct(ws) {
      MapOfAt(ws);
    }
  }

  lemma NotFound(ws: seq<Watch>, wd: nat)
    requires forall i | 0 <= i < |ws| :: ws[i].wd != wd
    ensures Distinct(ws) ==> wd !in MapOf(ws) && MapOf(ws) - {wd} == MapOf(ws)
  {
    if Distinct(ws) {
      MapOfAt(ws);
    }
  }

  lemma SwapRemoveDrops(ws: seq<Watch>, i: nat)
    requires i < |ws|
    ensures Distinct(ws) ==> Distinct(SwapRemove(ws, i)) && MapOf(SwapRemove(ws, i)) == MapOf(ws) - {ws[i].wd}
  {
    hide MapOf, Distinct, SwapRemove;
    if Distinct(ws) {
      var us, m := SwapRemove(ws, i), MapOf(ws) - {ws[i].wd};
      SwapRemoveDistinct(ws, i);
      forall j | 0 <= j < |us| ensures us[j].wd in m && m[us[j].wd] == us[j].path {
        FindMeansLookup(ws, if j == i then |ws| - 1 else j);
      }
      forall w | w in m ensures exists j | 0 <= j < |us| :: us[j].wd == w {
        StillRecorded(ws, i, w);
      }
      SameRecordsSameMap(us, m);
    }
  }

  lemma StillRecorded(ws: seq<Watch>, i: nat, wd: nat)
    requires i < |ws| && Distinct(ws) && wd in MapOf(ws) && wd != ws[i].wd
    ensures exists j | 0 <= j < |SwapRemove(ws, i)| :: SwapRemove(ws, i)[j].wd == wd
  {
    hide MapOf;
    MapOfAt(ws);
    var k :| 0 <= k < |ws| && ws[k].wd == wd;
    assert SwapRemove(ws, i)[if k == |ws| - 1 then i else k] == ws[k];
  }

  lemma SwapRemoveDistinct(ws: seq<Watch>, i: nat)
    requires i < |ws| && Distinct(ws)
    ensures Distinct(SwapRemove(ws, i)) && |SwapRemove(ws, i)| == |ws| - 1
    ensures forall j | 0 <= j < |ws| - 1 :: SwapRemove(ws, i)[j] == ws[if j == i then |ws| - 1 else j]
    ensures forall j | 0 <= j < |ws| - 1 :: SwapRemove(ws, i)[j].wd != ws[i].wd
  {
  }

  lemma RebasedRecords(ws: seq<Watch>, us: seq<Watch>, from: Path, to: Path)
    requires |us| == |ws|
    requires forall i | 0 <= i < |us| :: us[i] == Watch(ws[i].wd, Rebase(ws[i].path, from, to))
    ensures Distinct(ws) ==> Distinct(us) && MapOf(us) == RebaseTable(MapOf(ws), from, to)
  {
    if Distinct(ws) {
      MapOfAt(ws);
      forall w | w in MapOf(ws) ensures exists j | 0 <= j < |us| :: us[j].wd == w {
        var k :| 0 <= k < |ws| && ws[k].wd == w;
        assert us[k].wd == w;
      }
      SameRecordsSameMap(us, RebaseTable(MapOf(ws), from, to));
    }
  }
}

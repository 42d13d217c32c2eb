// Checkpoints come to an end: the runs that CheckpointIsFull speaks about exist.
module IncrementalProgress {
  import opened Variants
  import opened InfoList
  import opened Memory
  import opened Tiles
  import opened Pager
  import opened ManagedRam
  import opened CopyTable
  import opened MemoryPlan
  import opened Incremental
  import opened IncrementalShipped

  // Every state of run follows from the one before it.
  ghost predicate Steps(v: Variant, run: seq<State>) {
    forall n :: 0 <= n < |run| - 1 ==> Good(v, run[n], run[n + 1])
  }

  // run leads from s to the next completed checkpoint of the same dataspaces.
  ghost predicate Completes(v: Variant, s: State, run: seq<State>) {
    && run != [] && run[0] == s && Steps(v, run)
    && run[|run| - 1].phase == Finished && SameShape(s.ds, run[|run| - 1].ds)
    && forall n :: 0 <= n < |run| - 1 ==> run[n].phase != Finished
  }

  lemma OneMoreStep(v: Variant, s: State, s': State, rest: seq<State>)
    requires Good(v, s, s') && SameShape(s.ds, s'.ds) && s.phase != Finished && Completes(v, s', rest)
    ensures Completes(v, s, [s] + rest)
  {
    var run := [s] + rest;
    forall n | 0 <= n < |run| - 1 ensures Good(v, run[n], run[n + 1]) {
      if n > 0 {
        assert run[n] == rest[n - 1] && run[n + 1] == rest[n - 1 + 1];
      }
    }
    SameShapeTwice(s.ds, s'.ds, rest[|rest| - 1].ds);
  }

  lemma SameShapeTwice(a: seq<Ds>, b: seq<Ds>, c: seq<Ds>)
    requires SameShape(a, b) && SameShape(b, c)
    ensures SameShape(a, c)
  {
    forall i, k | Ix(a, i, k) ensures At(c, i, k) == At(a, i, k).(attached := At(c, i, k).attached) {
      assert Ix(b, i, k);
    }
  }

  // Every copy that is due can be made.
  lemma NextCopy(s: State)
    requires Inv(s) && s.phase == Copying && s.jobs != []
    ensures CanCopy(s.mem, s.jobs[0])
  {
    var j := s.jobs[0];
    assert j in s.jobs;
    assert Legit(s.ds, s.table, j);
    var i, k :| Ix(s.ds, i, k) && j == SliceJob(At(s.ds, i, k), CopyOf(s.table, s.ds[i].badge));
    CopyInBounds(s.ds, s.table, s.mem, i, k);
  }

  lemma {:induction false} CopyingFinishes(v: Variant, s: State) returns (run: seq<State>)
    requires Inv(s) && s.phase == Copying
    ensures Completes(v, s, run)
    decreases |s.jobs|
  {
    if s.jobs == [] {
      var s' := s.(phase := Finished);
      assert Finishes(s, s');
      run := [s, s'];
    } else {
      NextCopy(s);
      var s' := s.(mem := CopyJob(s.mem, s.jobs[0]), jobs := s.jobs[1..]);
      assert CopiesNext(s, s');
      CopyKeeps(s, s');
      var rest := CopyingFinishes(v, s');
      OneMoreStep(v, s, s', rest);
      run := [s] + rest;
    }
  }

  lemma DetachedShape(ds: seq<Ds>)
    ensures SameShape(ds, DetachedDs(ds))
  {
    forall i | 0 <= i < |ds| ensures |Slices(DetachedDs(ds)[i])| == |Slices(ds[i])| {
    }
  }

  lemma ResolvedFinishes(v: Variant, s: State) returns (run: seq<State>)
    requires Inv(s) && s.phase == Resolved
    ensures Completes(v, s, run)
  {
    var s' := s.(phase := Copying, ds := DetachedDs(s.ds));
    assert Detaches(s, s');
    DetachKeeps(s, s');
    var rest := CopyingFinishes(v, s');
    DetachedShape(s.ds);
    OneMoreStep(v, s, s', rest);
    run := [s] + rest;
  }

  // No phase behind the preparation can get stuck: there is always a way to the end of the checkpoint.
  lemma CheckpointCompletes(v: Variant, s: State) returns (run: seq<State>)
    requires Inv(s) && s.phase == Prepared && ResolvesAll(v, s.ds)
    ensures Completes(v, s, run)
  {
    var s' := s.(phase := Resolved, jobs := Resolve(v, s.ds, |s.ds|, s.jobs));
    assert Resolves(v, s, s');
    ResolveKeeps(v, s, s');
    var rest := ResolvedFinishes(v, s');
    OneMoreStep(v, s, s', rest);
    run := [s] + rest;
  }

  // A run that has come to the reconciliation, carried on.
  lemma CarriedOn(v: Variant, run: seq<State>, s: State, rest: seq<State>)
    requires IsRun(v, run) && Prepares(run[|run| - 1], s) && Completes(v, s, rest)
    ensures IsRun(v, run + rest)
  {
    var m, full := |run|, run + rest;
    forall n | 0 <= n < |full| - 1 ensures Good(v, full[n], full[n + 1]) {
      if n < m - 1 {
        assert Good(v, run[n], run[n + 1]);
      } else if n >= m {
        assert Good(v, rest[n - m], rest[n - m + 1]);
      }
    }
  }

  ghost predicate UnderWay(p: Phase) {
    p in {Prepared, Resolved, Copying, Finished}
  }

  lemma {:induction false} StaysUnderWay(v: Variant, s: State, run: seq<State>, k: nat)
    requires Completes(v, s, run) && UnderWay(s.phase) && k < |run|
    ensures UnderWay(run[k].phase)
  {
    if k > 0 {
      StaysUnderWay(v, s, run, k - 1);
      assert Good(v, run[k - 1], run[k - 1 + 1]);
    }
  }

  // ---- From a running child to the prepared state ----

  lemma UnusedBadge(used: set<nat>) returns (bound: nat)
    ensures forall c :: c in used ==> c < bound
    decreases |used|
  {
    if used == {} {
      bound := 0;
    } else {
      var c :| c in used;
      var rest := UnusedBadge(used - {c});
      bound := if c < rest then rest else c + 1;
      forall d | d in used ensures d < bound {
        assert d == c || d in used - {c};
      }
    }
  }

  // Badge of the copy made for dataspace i.
  ghost function NewCopy(bound: nat, i: nat): nat {
    bound + i
  }

  // The entry a reconciliation leaves for dataspace i: the known one, or one with a new copy.
  ghost function EntryFor(s: State, bound: nat, i: nat): CopyEntry
    requires i < |s.ds|
  {
    match Lookup(s.table, s.ds[i].badge)
    case Some(e) => e
    case None => CopyEntry(s.ds[i].badge, NewCopy(bound, i), s.ds[i].size, 1)
  }

  ghost function NewTable(s: State, bound: nat): (t: seq<CopyEntry>)
    ensures |t| == |s.ds| && forall i :: 0 <= i < |t| ==> t[i] == EntryFor(s, bound, i)
  {
    seq(|s.ds|, i requires 0 <= i < |s.ds| => EntryFor(s, bound, i))
  }

  ghost function NewMemTo(s: State, bound: nat, n: nat): (mem: map<nat, seq<byte>>)
    requires n <= |s.ds|
    ensures forall c :: c in s.mem && c < bound ==> c in mem && mem[c] == s.mem[c]
    ensures forall i :: 0 <= i < n ==> NewCopy(bound, i) in mem && |mem[NewCopy(bound, i)]| == Align(s.ds[i].size)
  {
    if n == 0 then s.mem else NewMemTo(s, bound, n - 1)[NewCopy(bound, n - 1) := Fill(Align(s.ds[n - 1].size), 0)]
  }

  ghost function NewMem(s: State, bound: nat): map<nat, seq<byte>> {
    NewMemTo(s, bound, |s.ds|)
  }

  ghost predicate Unused(s: State, bound: nat) {
    forall c :: c in s.mem ==> c < bound
  }

  // What the entry of dataspace i is.
  lemma EntryForIs(s: State, bound: nat, i: nat)
    requires Inv(s) && Unused(s, bound) && i < |s.ds|
    ensures var e := EntryFor(s, bound, i);
      && e.orig == s.ds[i].badge && e.size == s.ds[i].size
      && (if Lookup(s.table, s.ds[i].badge).Some? then e in s.table && e.copy in s.mem && e.copy < bound else e.copy == NewCopy(bound, i))
      && e.copy in NewMem(s, bound) && Align(e.size) <= |NewMem(s, bound)[e.copy]|
  {
    LookupFinds(s.table, s.ds[i].badge);
  }

  lemma EntryMember(s: State, bound: nat, e: CopyEntry) returns (i: nat)
    requires Inv(s) && Unused(s, bound) && e in NewTable(s, bound)
    ensures i < |s.ds| && e == EntryFor(s, bound, i)
    ensures e.orig == s.ds[i].badge && e.size == s.ds[i].size
    ensures e in s.table || e.copy == NewCopy(bound, i)
    ensures e.copy in NewMem(s, bound) && Align(e.size) <= |NewMem(s, bound)[e.copy]|
  {
    i :| 0 <= i < |s.ds| && NewTable(s, bound)[i] == e;
    EntryForIs(s, bound, i);
  }

  lemma NewOrigsDistinct(s: State, bound: nat)
    requires Inv(s) && Unused(s, bound)
    ensures DistinctOrigs(NewTable(s, bound))
  {
    forall i | 0 <= i < |s.ds| ensures NewTable(s, bound)[i].orig == s.ds[i].badge {
      EntryForIs(s, bound, i);
    }
  }

  lemma KnownCopy(s: State, bound: nat, e: CopyEntry)
    requires Inv(s) && Unused(s, bound) && e in s.table
    ensures e.copy < bound
    ensures forall e' :: e' in s.table && e'.copy == e.copy ==> e' == e
  {
  }

  lemma NewCopyUsedOnce(s: State, bound: nat, e: CopyEntry, e': CopyEntry)
    requires Inv(s) && Unused(s, bound) && e in NewTable(s, bound) && e' in NewTable(s, bound) && e.copy == e'.copy
    ensures e == e'
  {
    var i := EntryMember(s, bound, e);
    var j := EntryMember(s, bound, e');
    if e in s.table {
      KnownCopy(s, bound, e);
    } else if e' in s.table {
      KnownCopy(s, bound, e');
    } else {
      assert e.copy == NewCopy(bound, i) && e'.copy == NewCopy(bound, j);
    }
  }

  lemma NewCopyIsNoTile(s: State, bound: nat, e: CopyEntry, i: int, k: int)
    requires Inv(s) && Unused(s, bound) && e in NewTable(s, bound) && Ix(s.ds, i, k)
    ensures At(s.ds, i, k).cap != e.copy
  {
    var j := EntryMember(s, bound, e);
    assert At(s.ds, i, k).cap in s.mem;
  }

  lemma NewSizes(s: State, bound: nat, e: CopyEntry, i: int)
    requires Inv(s) && Unused(s, bound) && e in NewTable(s, bound) && 0 <= i < |s.ds| && e.orig == s.ds[i].badge
    ensures e.size == s.ds[i].size
  {
    var j := EntryMember(s, bound, e);
    assert i == j;
  }

  lemma NewTableFits(s: State, bound: nat)
    requires Inv(s) && Unused(s, bound)
    ensures TableFits(s.ds, NewTable(s, bound), NewMem(s, bound))
  {
    var t, mem := NewTable(s, bound), NewMem(s, bound);
    NewOrigsDistinct(s, bound);
    forall e | e in t ensures e.copy in mem && Align(e.size) <= |mem[e.copy]| {
      var i := EntryMember(s, bound, e);
    }
    forall e, e' | e in t && e' in t && e.copy == e'.copy ensures e == e' {
      NewCopyUsedOnce(s, bound, e, e');
    }
    forall e, i, k | e in t && Ix(s.ds, i, k) ensures At(s.ds, i, k).cap != e.copy {
      NewCopyIsNoTile(s, bound, e, i, k);
    }
    forall e, i | e in t && 0 <= i < |s.ds| && e.orig == s.ds[i].badge ensures e.size == s.ds[i].size {
      NewSizes(s, bound, e, i);
    }
  }

  lemma NewTableComplete(s: State, bound: nat)
    requires Inv(s) && Unused(s, bound)
    ensures Complete(s.ds, NewTable(s, bound))
    ensures forall i :: 0 <= i < |s.ds| && Lookup(s.table, s.ds[i].badge).Some? ==>
      CopyOf(NewTable(s, bound), s.ds[i].badge) == CopyOf(s.table, s.ds[i].badge)
  {
    var t := NewTable(s, bound);
    NewTableFits(s, bound);
    forall i | 0 <= i < |s.ds| ensures Lookup(t, s.ds[i].badge) == Some(t[i]) {
      EntryForIs(s, bound, i);
      assert t[i] in t;
      LookupIs(t, t[i]);
    }
    forall e | e in t ensures exists i :: 0 <= i < |s.ds| && s.ds[i].badge == e.orig {
      var i :| 0 <= i < |t| && t[i] == e;
      EntryForIs(s, bound, i);
    }
  }

  lemma NewPrepared(s: State) returns (s': State)
    requires Inv(s) && s.phase == Scanned
    ensures Prepares(s, s') && s'.ds == s.ds
  {
    var bound := UnusedBadge(s.mem.Keys);
    NewTableFits(s, bound);
    NewTableComplete(s, bound);
    s' := s.(phase := Prepared, table := NewTable(s, bound), mem := NewMem(s, bound), jobs := AllJobs(NewTable(s, bound), |s.ds|));
  }

  lemma ScannedFinishes(v: Variant, s: State) returns (run: seq<State>)
    requires Inv(s) && s.phase == Scanned && ResolvesAll(v, s.ds)
    ensures Completes(v, s, run)
  {
    var s' := NewPrepared(s);
    PrepareKeeps(s, s');
    var rest := CheckpointCompletes(v, s');
    OneMoreStep(v, s, s', rest);
    run := [s] + rest;
  }

  // The state after the capability map has been read is the one before.
  lemma MarkedFinishes(v: Variant, s: State, s': State) returns (run: seq<State>)
    requires Inv(s) && s.phase == Paused && Marks(s, s', 0) && ResolvesAll(v, s.ds)
    ensures Completes(v, s', run)
  {
    MarkKeeps(s, s', 0);
    var tiles := s'.ds[0].tiles;
    var ds := if tiles.Some? then WithTiles(s'.ds, 0, DetachMarked(tiles.value, s'.marks)) else s'.ds;
    var s'' := s'.(phase := Scanned, ds := ds);
    assert Unmarks(s', s'');
    UnmarkKeeps(s', s'');
    MarkedIsNeutral(s, s');
    var rest := ScannedFinishes(v, s'');
    OneMoreStep(v, s', s'', rest);
    run := [s'] + rest;
  }

  lemma CapsDistinct(ds: seq<Ds>, i: nat)
    requires DistinctBadges(ds) && i < |ds| && ds[i].tiles.Some?
    ensures DistinctCaps(ds[i].tiles.value)
  {
    forall k, l | 0 <= k < l < |ds[i].tiles.value| ensures ds[i].tiles.value[k].cap != ds[i].tiles.value[l].cap {
      assert Slices(ds[i])[k].cap != Slices(ds[i])[l].cap;
    }
  }

  lemma MarkedIsNeutral(s: State, s': State)
    requires Inv(s) && Marks(s, s', 0)
    ensures SameShape(s.ds, s'.ds) && SameShape(s'.ds, s.ds)
    ensures s.ds == if s'.ds[0].tiles.Some? then WithTiles(s'.ds, 0, DetachMarked(s'.ds[0].tiles.value, s'.marks)) else s'.ds
  {
    if s.ds[0].tiles.Some? {
      var ts := s.ds[0].tiles.value;
      CapsDistinct(s.ds, 0);
      MarkUnmarkNeutral(ts);
      WithTilesShape(s.ds, 0, AllSet(ts, true));
      WithTilesShape(s'.ds, 0, ts);
      assert WithTiles(s'.ds, 0, ts) == s.ds;
    }
  }

  // Whenever the child runs and has memory, a checkpoint can be begun and brought to its end, with the
  // shipped resolution too if no tile behind a first one is attached.
  lemma CheckpointPossible(v: Variant, s: State) returns (run: seq<State>)
    requires Inv(s) && s.phase == Running && s.ds != [] && ResolvesAll(v, s.ds)
    ensures Completes(v, s, run)
  {
    var paused := s.(phase := Paused);
    assert Pauses(s, paused);
    var marked := if s.ds[0].tiles.Some? then
      paused.(phase := Marked, ds := WithTiles(s.ds, 0, AllSet(s.ds[0].tiles.value, true)), marked := 0,
              marks := DetachedCaps(s.ds[0].tiles.value, |s.ds[0].tiles.value|))
      else paused.(phase := Marked, marked := 0, marks := []);
    assert Marks(paused, marked, 0);
    MarkedIsNeutral(paused, marked);
    var rest := MarkedFinishes(v, paused, marked);
    OneMoreStep(v, paused, marked, rest);
    OneMoreStep(v, s, paused, [paused] + rest);
    run := [s] + ([paused] + rest);
  }

  // From nothing: a child allocates one managed page, runs, and is checkpointed.
  lemma RunFromNothing(v: Variant) returns (run: seq<State>)
    ensures IsRun(v, run) && run[|run| - 1].phase == Finished && |run[|run| - 1].ds| == 1
  {
    var s := State([], [], map[], Running, 0, [], []);
    var s' := FirstAllocation(s);
    var rest := CheckpointPossible(v, s');
    run := [s] + rest;
    forall n | 0 <= n < |run| - 1 ensures Good(v, run[n], run[n + 1]) {
      if n > 0 {
        assert run[n] == rest[n - 1] && run[n + 1] == rest[n - 1 + 1];
      }
    }
  }

  lemma FirstAllocation(s: State) returns (s': State)
    requires s == State([], [], map[], Running, 0, [], [])
    ensures s'.phase == Running && |s'.ds| == 1 && Inv(s') && (exists d :: Allocates(s, s', d))
    ensures forall v :: ResolvesAll(v, s'.ds)
  {
    var d := Ds(1, 4096, Some([Tile(2, 0, 4096, true)]));
    s' := State([d], [], map[2 := Fill(4096, 7)], Running, 0, [], []);
    OnePageShaped(d);
    assert Allocates(s, s', d);
    AllocKeeps(s, s', d);
  }

  lemma OnePageShaped(d: Ds)
    requires d == Ds(1, 4096, Some([Tile(2, 0, 4096, true)]))
    ensures Shaped([d])
  {
    assert Align(4096) == 4096;
    assert [Tile(2, 0, 4096, true)][1..] == [];
  }
}

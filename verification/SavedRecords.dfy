// What a completed checkpoint leaves for a restore: the record of every dataspace saved names the copy that
// holds its content.
module SavedRecords {
  import opened Variants
  import opened Folding
  import opened InfoList
  import opened Memory
  import opened CapMap
  import opened CopyTable
  import opened Reconcile
  import opened ReconcileKeys
  import opened StoredState
  import opened StoredRegions
  import opened StoredStateMirror
  import opened StoredStateRefs
  import opened StoredStateRuns
  import opened StoredBadges
  import opened MemoryPlan
  import opened PrepareStep
  import opened RestoreSessions
  import RestoreState
  import Inc = Incremental
  import IncrementalProgress

  // ---- Records and copies ----

  // A record of a RAM dataspace, or of a region that shows no region map.
  ghost predicate RamStored(s: RestoreState.StoredChild, d: StoredRamDs) {
    exists r :: r in s.ram && d in r.kids
  }

  ghost predicate MapStored(s: RestoreState.StoredChild, m: StoredMap) {
    (exists p :: p in s.pd && m in p.session.kids) || (exists r :: r in s.rm && m in r.kids)
  }

  ghost predicate RegionStored(s: RestoreState.StoredChild, q: StoredRegion) {
    !ShowsMap(s, q.dsBadge) && exists m :: MapStored(s, m) && q in m.kids
  }

  ghost predicate Listed(ds: seq<Ds>, b: nat) {
    exists x :: 0 <= x < |ds| && ds[x].badge == b
  }

  ghost predicate RamRecorded(s: RestoreState.StoredChild, b: nat) {
    exists d :: RamStored(s, d) && d.badge == b
  }

  // A record of a region that shows a dataspace of unknown origin.
  ghost predicate UnknownStored(s: RestoreState.StoredChild, q: StoredRegion) {
    RegionStored(s, q) && !RamRecorded(s, q.dsBadge)
  }

  ghost predicate ListedWhole(ds: seq<Ds>, b: nat) {
    exists x :: 0 <= x < |ds| && ds[x].badge == b && ds[x].tiles.None?
  }

  ghost predicate ListedAs(ds: seq<Ds>, b: nat, size: nat) {
    exists x :: 0 <= x < |ds| && ds[x].badge == b && ds[x].size == size
  }

  // Each record is of a dataspace of the child and names its copy, in whatever order the records are.
  ghost predicate RecordsOf(s: RestoreState.StoredChild, ds: seq<Ds>, table: seq<CopyEntry>) {
    && (forall d :: RamStored(s, d) ==> ListedAs(ds, d.badge, d.size) && d.copy == CopyOf(table, d.badge))
    && (forall q :: RegionStored(s, q) ==> Listed(ds, q.dsBadge) && q.copy == Some(CopyOf(table, q.dsBadge)))
    && (forall q :: UnknownStored(s, q) ==> ListedWhole(ds, q.dsBadge))
  }

  // The state the restorer reads holds what the checkpointer has stored.
  ghost predicate Holds(sc: RestoreState.StoredChild, s: Stored) {
    sc.ram == s.ram && sc.rm == s.rm && |sc.pd| == |s.pd| && forall i :: 0 <= i < |s.pd| ==> sc.pd[i].session == s.pd[i]
  }

  // ---- The reconciliation makes them ----

  lemma RamRecordHolds(s: Stored, w: World, c: Copies, managed: set<nat>, ds: seq<Ds>, d: StoredRamDs, r: StoredRamSession)
    requires Consistent(s, c, Maps(w), managed) && Mirrors(s, w) && Lists(ds, w) && r in s.ram && d in r.kids
    ensures ListedAs(Resize(ds, w, c.table), d.badge, d.size) && d.copy == CopyOf(c.table, d.badge)
  {
    RecordNames(s, c, Maps(w), managed, r.head.badge, d);
    RamRecordDescribes(s.ram, w.ram, r, d);
    var l, e :| l in w.ram && e in l.kids && DescribesRamDs(d, e);
    LiveListed(w, ds, c.table, l, e);
  }

  lemma LiveListed(w: World, ds: seq<Ds>, table: seq<CopyEntry>, l: RamSession, e: RamDs)
    requires Lists(ds, w) && l in w.ram && e in l.kids
    ensures ListedAs(Resize(ds, w, table), e.badge, e.size)
  {
    assert RamLive(w.ram, e.badge) && Saved(w, e.badge);
    var x :| 0 <= x < |ds| && ds[x].badge == e.badge;
    assert Resize(ds, w, table)[x] == ds[x];
  }

  // A live region map is recorded with its dataspace.
  lemma MapRecorded(stored: seq<StoredRmSession>, live: seq<RmSession>, b: nat)
    requires Reconciled(RmView(), stored, live) && b in SessionMapBadges(live)
    ensures exists s, m :: s in stored && m in s.kids && m.head.dsBadge == b
  {
    var l, m :| l in live && m in l.kids && m.head.dsBadge == b;
    assert HasCurrent(RmView(), stored, l);
    var s :| s in stored && s.head.badge == l.head.badge && RmView().current(s, l);
    assert HasCurrent(MapView(), s.kids, m);
  }

  lemma LiveMapShown(s: Stored, w: World, sc: RestoreState.StoredChild, b: nat)
    requires Mirrors(s, w) && Holds(sc, s) && b in Maps(w)
    ensures ShowsMap(sc, b)
  {
    if b in SessionMapBadges(w.pd) {
      MapRecorded(s.pd, w.pd, b);
      var p, m :| p in s.pd && m in p.kids && m.head.dsBadge == b;
      var i :| 0 <= i < |s.pd| && s.pd[i] == p;
      assert sc.pd[i] in sc.pd && b in StoredMapBadges(sc.pd[i].session.kids);
    } else {
      MapRecorded(s.rm, w.rm, b);
      var r, m :| r in s.rm && m in r.kids && m.head.dsBadge == b;
      assert b in StoredMapBadges(r.kids);
    }
  }

  lemma RegionRecordOk(stored: seq<StoredRmSession>, maps: set<nat>, managed: set<nat>, c: Copies, r: StoredRmSession, m: StoredMap, q: StoredRegion)
    requires AllOk(RmAccount(maps, managed), stored, c) && r in stored && m in r.kids && q in m.kids && q.dsBadge !in managed
    ensures q.copy == Some(CopyOf(c.table, q.dsBadge))
  {
    var i :| 0 <= i < |stored| && stored[i] == r;
    var j :| 0 <= j < |r.kids| && r.kids[j] == m;
    var k :| 0 <= k < |m.kids| && m.kids[k] == q;
    assert RmAccount(maps, managed).ok(stored[i], c) && MapAccount(maps, managed).ok(r.kids[j], c);
    assert RegionAccount(maps, managed).ok(m.kids[k], c);
  }

  lemma RegionRecordHolds(s: Stored, w: World, c: Copies, managed: set<nat>, ds: seq<Ds>, sc: RestoreState.StoredChild,
                          r: StoredRmSession, m: StoredMap, q: StoredRegion)
    requires Consistent(s, c, Maps(w), managed) && Admissible(w, managed) && Mirrors(s, w) && Lists(ds, w) && Holds(sc, s)
    requires (r in s.pd || r in s.rm) && m in r.kids && q in m.kids && !ShowsMap(sc, q.dsBadge)
    ensures Listed(Resize(ds, w, c.table), q.dsBadge) && q.copy == Some(CopyOf(c.table, q.dsBadge))
  {
    var b := q.dsBadge;
    if b in Maps(w) {
      LiveMapShown(s, w, sc, b);
    }
    assert Recalls(m, b);
    RegionRecordSaved(s, w, managed, b, if r in s.pd then s.pd else s.rm);
    RegionRecordOk(if r in s.pd then s.pd else s.rm, Maps(w), managed, c, r, m, q);
    var x :| 0 <= x < |ds| && ds[x].badge == b;
    assert Resize(ds, w, c.table)[x].badge == b;
  }

  lemma RegionRecordSaved(s: Stored, w: World, managed: set<nat>, b: nat, stored: seq<StoredRmSession>)
    requires Admissible(w, managed) && Mirrors(s, w) && (stored == s.pd || stored == s.rm) && RegionRecord(stored, b) && b !in Maps(w)
    ensures b !in managed && Saved(w, b)
  {
    RegionRecordIffLive(stored, if stored == s.pd then w.pd else w.rm, b);
    LiveNotManaged(w, managed, b);
  }

  // The stored state of a checkpoint names the copies that the checkpoint is about to fill.
  lemma CheckpointRecords(s: Stored, w: World, c: Copies, maps: set<nat>, managed: set<nat>, st: Inc.State, mem': map<nat, seq<byte>>,
                          sc: RestoreState.StoredChild)
    requires Ready(s, w, c, maps, managed, st, mem') && Holds(sc, Checkpoint(s, w, c).0)
    ensures RecordsOf(sc, PreparedState(s, w, c, st, mem').ds, PreparedState(s, w, c, st, mem').table)
  {
    OpenReady(s, w, c, maps, managed, st, mem');
    CheckpointConsistent(s, w, c, maps, managed);
    CheckpointMirrors(s, w, c);
    StoredRecords(Checkpoint(s, w, c).0, w, Checkpoint(s, w, c).1, managed, st.ds, sc);
  }

  lemma StoredRecords(s: Stored, w: World, c: Copies, managed: set<nat>, ds: seq<Ds>, sc: RestoreState.StoredChild)
    requires Consistent(s, c, Maps(w), managed) && Admissible(w, managed) && Mirrors(s, w) && Lists(ds, w) && Holds(sc, s)
    ensures RecordsOf(sc, Resize(ds, w, c.table), c.table)
  {
    var ds' := Resize(ds, w, c.table);
    forall d | RamStored(sc, d) ensures ListedAs(ds', d.badge, d.size) && d.copy == CopyOf(c.table, d.badge) {
      var r :| r in sc.ram && d in r.kids;
      RamRecordHolds(s, w, c, managed, ds, d, r);
    }
    forall q | RegionStored(sc, q) ensures Listed(ds', q.dsBadge) && q.copy == Some(CopyOf(c.table, q.dsBadge)) {
      var m :| MapStored(sc, m) && q in m.kids;
      var r := SessionOf(s, sc, m);
      RegionRecordHolds(s, w, c, managed, ds, sc, r, m, q);
    }
    forall q | UnknownStored(sc, q) ensures ListedWhole(ds', q.dsBadge) {
      assert Listed(ds', q.dsBadge);
      UnknownIsWhole(s, w, ds, c.table, sc, q.dsBadge);
    }
  }

  // Only dataspaces of RAM sessions have tiles.
  lemma UnknownIsWhole(s: Stored, w: World, ds: seq<Ds>, table: seq<CopyEntry>, sc: RestoreState.StoredChild, b: nat)
    requires Mirrors(s, w) && Lists(ds, w) && Holds(sc, s) && !RamRecorded(sc, b) && Listed(Resize(ds, w, table), b)
    ensures ListedWhole(Resize(ds, w, table), b)
  {
    var x :| 0 <= x < |ds| && Resize(ds, w, table)[x].badge == b;
    LiveIsRecorded(s, w, sc, b);
    assert Resize(ds, w, table)[x].tiles.None?;
  }

  lemma LiveIsRecorded(s: Stored, w: World, sc: RestoreState.StoredChild, b: nat)
    requires Mirrors(s, w) && Holds(sc, s)
    ensures RamLive(w.ram, b) ==> RamRecorded(sc, b)
  {
    RamRecordIffLive(s.ram, w.ram, b);
    if RamLive(w.ram, b) {
      var r, d :| r in s.ram && d in r.kids && d.badge == b;
      assert RamStored(sc, d);
    }
  }

  lemma SessionOf(s: Stored, sc: RestoreState.StoredChild, m: StoredMap) returns (r: StoredRmSession)
    requires Holds(sc, s) && MapStored(sc, m)
    ensures (r in s.pd || r in s.rm) && m in r.kids
  {
    if p :| p in sc.pd && m in p.session.kids {
      var i :| 0 <= i < |sc.pd| && sc.pd[i] == p;
      assert s.pd[i] in s.pd;
      r := p.session;
    } else {
      r :| r in sc.rm && m in r.kids;
    }
  }

  // ---- The checkpoint goes on ----

  // From the reconciliation on, the checkpoint can always be brought to its end.
  lemma ReconciledCompletes(v: Variant, s: Stored, w: World, c: Copies, maps: set<nat>, managed: set<nat>, st: Inc.State,
                            mem': map<nat, seq<byte>>) returns (run: seq<Inc.State>)
    requires Ready(s, w, c, maps, managed, st, mem') && Inc.ResolvesAll(v, st.ds)
    ensures Inc.Prepares(st, PreparedState(s, w, c, st, mem'))
    ensures IncrementalProgress.Completes(v, PreparedState(s, w, c, st, mem'), run)
  {
    CheckpointPrepares(s, w, c, maps, managed, st, mem');
    run := IncrementalProgress.CheckpointCompletes(v, PreparedState(s, w, c, st, mem'));
  }

  // From the reconciliation on, neither the dataspaces nor their copies change.
  lemma StepKeepsRecords(v: Variant, st: Inc.State, st': Inc.State, sc: RestoreState.StoredChild)
    requires Inc.Next(v, st, st') && IncrementalProgress.UnderWay(st.phase) && IncrementalProgress.UnderWay(st'.phase) && RecordsOf(sc, st.ds, st.table)
    ensures RecordsOf(sc, st'.ds, st'.table)
  {
    assert |st'.ds| == |st.ds| && forall i :: 0 <= i < |st.ds| ==>
      st'.ds[i].badge == st.ds[i].badge && st'.ds[i].size == st.ds[i].size && (st'.ds[i].tiles.None? <==> st.ds[i].tiles.None?);
    forall d | RamStored(sc, d) ensures ListedAs(st'.ds, d.badge, d.size) {
      var x :| 0 <= x < |st.ds| && st.ds[x].badge == d.badge && st.ds[x].size == d.size;
      assert st'.ds[x].badge == d.badge;
    }
    forall q | RegionStored(sc, q) ensures Listed(st'.ds, q.dsBadge) {
      var x :| 0 <= x < |st.ds| && st.ds[x].badge == q.dsBadge;
      assert st'.ds[x].badge == q.dsBadge;
    }
    forall q | UnknownStored(sc, q) ensures ListedWhole(st'.ds, q.dsBadge) {
      var x :| 0 <= x < |st.ds| && st.ds[x].badge == q.dsBadge && st.ds[x].tiles.None?;
      assert st'.ds[x].badge == q.dsBadge;
    }
  }

  lemma {:induction false} RecordsLast(v: Variant, run: seq<Inc.State>, m: nat, n: nat, sc: RestoreState.StoredChild)
    requires Inc.IsRun(v, run) && m <= n < |run| && (forall k :: m <= k <= n ==> IncrementalProgress.UnderWay(run[k].phase))
    requires RecordsOf(sc, run[m].ds, run[m].table)
    ensures RecordsOf(sc, run[n].ds, run[n].table)
  {
    if m < n {
      RecordsLast(v, run, m, n - 1, sc);
      assert Inc.Good(v, run[n - 1], run[n - 1 + 1]);
      StepKeepsRecords(v, run[n - 1], run[n], sc);
    }
  }

  // The checkpoint that is finished in state n of a run has reconciled the stored state in the step to state
  // m, with the result sc.
  ghost predicate Stores(run: seq<Inc.State>, m: nat, n: nat, sc: RestoreState.StoredChild) {
    && 0 < m <= n < |run| && run[n].phase == Inc.Finished && (forall k :: m <= k <= n ==> IncrementalProgress.UnderWay(run[k].phase))
    && Recording(run[m - 1], run[m], sc)
  }

  // Folded like Ready.
  ghost predicate Recording(st: Inc.State, st': Inc.State, sc: RestoreState.StoredChild) {
    forall key: nat {:trigger Unfold(key)} :: Unfold(key) ==> exists s, w, c, maps, managed, mem' :: Reconciles(s, w, c, maps, managed, mem', st, st', sc)
  }

  lemma RecordingHolds(st: Inc.State, st': Inc.State, sc: RestoreState.StoredChild)
    requires Recording(st, st', sc)
    ensures RecordsOf(sc, st'.ds, st'.table)
  {
    assert Unfold(0);
    var s, w, c, maps, managed, mem' :| Reconciles(s, w, c, maps, managed, mem', st, st', sc);
    CheckpointRecords(s, w, c, maps, managed, st, mem', sc);
  }

  ghost predicate Reconciles(s: Stored, w: World, c: Copies, maps: set<nat>, managed: set<nat>, mem': map<nat, seq<byte>>,
                             st: Inc.State, st': Inc.State, sc: RestoreState.StoredChild)
  {
    Ready(s, w, c, maps, managed, st, mem') && st' == PreparedState(s, w, c, st, mem') && Holds(sc, Checkpoint(s, w, c).0)
  }

  lemma RecordingFrom(s: Stored, w: World, c: Copies, maps: set<nat>, managed: set<nat>, mem': map<nat, seq<byte>>,
                      st: Inc.State, sc: RestoreState.StoredChild)
    requires Ready(s, w, c, maps, managed, st, mem') && Holds(sc, Checkpoint(s, w, c).0)
    ensures Recording(st, PreparedState(s, w, c, st, mem'), sc)
  {
    assert Reconciles(s, w, c, maps, managed, mem', st, PreparedState(s, w, c, st, mem'), sc);
  }

  // A run that has come to the reconciliation can be carried on until the checkpoint is finished.
  lemma RunStores(v: Variant, run: seq<Inc.State>, s: Stored, w: World, c: Copies, maps: set<nat>, managed: set<nat>,
                  mem': map<nat, seq<byte>>, sc: RestoreState.StoredChild) returns (full: seq<Inc.State>)
    requires Inc.IsRun(v, run) && Ready(s, w, c, maps, managed, run[|run| - 1], mem') && Inc.ResolvesAll(v, run[|run| - 1].ds)
    requires Holds(sc, Checkpoint(s, w, c).0)
    ensures Inc.IsRun(v, full) && |run| < |full| && Stores(full, |run|, |full| - 1, sc)
    ensures Inc.SameShape(PreparedState(s, w, c, run[|run| - 1], mem').ds, full[|full| - 1].ds)
  {
    var st := run[|run| - 1];
    var st' := PreparedState(s, w, c, st, mem');
    var rest := ReconciledCompletes(v, s, w, c, maps, managed, st, mem');
    RecordingFrom(s, w, c, maps, managed, mem', st, sc);
    full := FinishedRun(v, run, st', rest, sc);
  }

  lemma FinishedRun(v: Variant, run: seq<Inc.State>, st: Inc.State, rest: seq<Inc.State>, sc: RestoreState.StoredChild) returns (full: seq<Inc.State>)
    requires Inc.IsRun(v, run) && Inc.Prepares(run[|run| - 1], st) && IncrementalProgress.Completes(v, st, rest)
    requires Recording(run[|run| - 1], st, sc)
    ensures Inc.IsRun(v, full) && |run| < |full| && Stores(full, |run|, |full| - 1, sc) && full[|full| - 1] == rest[|rest| - 1]
  {
    full := run + rest;
    IncrementalProgress.CarriedOn(v, run, st, rest);
    forall k | |run| <= k < |full| ensures IncrementalProgress.UnderWay(full[k].phase) {
      IncrementalProgress.StaysUnderWay(v, st, rest, k - |run|);
    }
  }

  lemma StoredRecordsLast(v: Variant, run: seq<Inc.State>, m: nat, n: nat, sc: RestoreState.StoredChild)
    requires Inc.IsRun(v, run) && Stores(run, m, n, sc)
    ensures RecordsOf(sc, run[n].ds, run[n].table)
  {
    RecordingHolds(run[m - 1], run[m], sc);
    RecordsLast(v, run, m, n, sc);
  }
}

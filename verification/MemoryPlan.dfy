// The list of memory regions a checkpoint or a restore has to copy, and how the entries of managed
// dataspaces are replaced by entries of their attached tiles
// (_create_memory_to_checkpoint, _resolve_inc_checkpoint_dataspaces).
module MemoryPlan {
  import opened Variants
  import opened InfoList
  import opened Tiles
  import opened CopyTable

  // A dataspace of the child; managed ones have tiles.
  datatype Ds = Ds(badge: nat, size: nat, tiles: Option<seq<Tile>>)

  // Orig_copy_ckpt_info and Orig_copy_resto_info
  datatype Job = Job(orig: nat, copy: nat, relAddr: nat, size: nat)

  // The dataspaces that hold the bytes of d: its tiles, or d itself, always accessible.
  function Slices(d: Ds): (ts: seq<Tile>)
    ensures d.tiles.Some? ==> ts == d.tiles.value
    ensures d.tiles.None? ==> ts == [Tile(d.badge, 0, d.size, true)]
  {
    if d.tiles.Some? then d.tiles.value else [Tile(d.badge, 0, d.size, true)]
  }

  function SliceJob(t: Tile, copy: nat): Job {
    Job(t.cap, copy, t.relAddr, t.size)
  }

  function FullJob(d: Ds, copy: nat): Job {
    Job(d.badge, copy, 0, d.size)
  }

  function EntryJob(e: CopyEntry): Job {
    Job(e.orig, e.copy, 0, e.size)
  }

  // _create_memory_to_checkpoint: one entry per known copy, the last one in front.
  function AllJobs(table: seq<CopyEntry>, n: nat): seq<Job>
    requires n <= |table|
  {
    if n == 0 then [] else [EntryJob(table[n - 1])] + AllJobs(table, n - 1)
  }

  lemma {:induction false} AllJobsHas(table: seq<CopyEntry>, n: nat)
    requires n <= |table| && DistinctOrigs(table)
    ensures forall j :: j in AllJobs(table, n) <==> exists i :: 0 <= i < n && j == EntryJob(table[i])
    ensures DistinctJobs(AllJobs(table, n))
  {
    if n > 0 {
      AllJobsHas(table, n - 1);
      var rest := AllJobs(table, n - 1);
      forall i | 0 <= i < |rest| ensures rest[i].orig != table[n - 1].orig {
        assert rest[i] in rest;
      }
    }
  }

  // Whether the resolution enters tile k.  The shipped code tests only the first tile (an if where all attached
  // tiles are meant).
  predicate Picked(v: Variant, ts: seq<Tile>, k: nat)
    requires k < |ts|
  {
    ts[k].attached && (v.Intended? || k == 0)
  }

  // Entries for the first n tiles in front of jobs.
  function PushTiles(v: Variant, ts: seq<Tile>, n: nat, copy: nat, jobs: seq<Job>): seq<Job>
    requires n <= |ts|
  {
    if n == 0 then jobs
    else if Picked(v, ts, n - 1) then [SliceJob(ts[n - 1], copy)] + PushTiles(v, ts, n - 1, copy, jobs)
    else PushTiles(v, ts, n - 1, copy, jobs)
  }

  function FindByOrig(jobs: seq<Job>, badge: nat): nat {
    FirstIndex(jobs, (j: Job) => j.orig == badge)
  }

  function ResolveOne(v: Variant, d: Ds, jobs: seq<Job>): seq<Job> {
    if d.tiles.None? then jobs
    else
      var k := FindByOrig(jobs, d.badge);
      if k == |jobs| then jobs
      else PushTiles(v, d.tiles.value, |d.tiles.value|, jobs[k].copy, RemoveAt(jobs, k))
  }

  // The first n dataspaces resolved.
  function Resolve(v: Variant, ds: seq<Ds>, n: nat, jobs: seq<Job>): seq<Job>
    requires n <= |ds|
  {
    if n == 0 then jobs else ResolveOne(v, ds[n - 1], Resolve(v, ds, n - 1, jobs))
  }

  // With no attached tile behind the first one, the shipped resolution is the intended one.
  ghost predicate NoTailAttached(ts: seq<Tile>) {
    forall k :: 0 < k < |ts| ==> !ts[k].attached
  }

  lemma {:induction false} PushTilesSame(ts: seq<Tile>, n: nat, copy: nat, jobs: seq<Job>)
    requires n <= |ts| && NoTailAttached(ts)
    ensures PushTiles(Shipped, ts, n, copy, jobs) == PushTiles(Intended, ts, n, copy, jobs)
  {
    if n > 0 {
      PushTilesSame(ts, n - 1, copy, jobs);
    }
  }

  lemma {:induction false} ResolveSame(ds: seq<Ds>, n: nat, jobs: seq<Job>)
    requires n <= |ds|
    requires forall i :: 0 <= i < n && ds[i].tiles.Some? ==> NoTailAttached(ds[i].tiles.value)
    ensures Resolve(Shipped, ds, n, jobs) == Resolve(Intended, ds, n, jobs)
  {
    if n > 0 {
      ResolveSame(ds, n - 1, jobs);
      var j := Resolve(Intended, ds, n - 1, jobs);
      var k := FindByOrig(j, ds[n - 1].badge);
      if ds[n - 1].tiles.Some? && k < |j| {
        var ts := ds[n - 1].tiles.value;
        PushTilesSame(ts, |ts|, j[k].copy, RemoveAt(j, k));
      }
    }
  }

  // ---- Which entries the resolved list holds ----

  // Every dataspace has its own badge, every tile its own capability, and no tile is a dataspace.
  ghost predicate DistinctBadges(ds: seq<Ds>) {
    && (forall i, j :: 0 <= i < j < |ds| ==> ds[i].badge != ds[j].badge)
    && (forall i, j, k :: 0 <= i < |ds| && 0 <= j < |ds| && 0 <= k < |Slices(ds[j])| && ds[j].tiles.Some? ==>
          Slices(ds[j])[k].cap != ds[i].badge)
    && (forall i, j, k, l :: 0 <= i < |ds| && 0 <= k < |Slices(ds[i])| && 0 <= j < |ds| && 0 <= l < |Slices(ds[j])| ==>
          (Slices(ds[i])[k].cap == Slices(ds[j])[l].cap ==> i == j && k == l))
  }

  ghost predicate DistinctJobs(jobs: seq<Job>) {
    forall i, j :: 0 <= i < j < |jobs| ==> jobs[i].orig != jobs[j].orig
  }

  // The copy a dataspace is saved to.
  ghost predicate CopiesOf(ds: seq<Ds>, copies: seq<nat>) {
    |copies| == |ds|
  }

  // j is the unresolved entry of dataspace i.
  ghost predicate IsFull(ds: seq<Ds>, copies: seq<nat>, n: nat, i: nat, j: Job)
    requires CopiesOf(ds, copies)
  {
    i < |ds| && (n <= i || ds[i].tiles.None?) && j == FullJob(ds[i], copies[i])
  }

  // j is the entry of tile k of the resolved dataspace i.
  ghost predicate IsTile(v: Variant, ds: seq<Ds>, copies: seq<nat>, n: nat, i: nat, k: nat, j: Job)
    requires CopiesOf(ds, copies)
  {
    && i < n && i < |ds| && ds[i].tiles.Some? && k < |ds[i].tiles.value| && Picked(v, ds[i].tiles.value, k)
    && j == SliceJob(ds[i].tiles.value[k], copies[i])
  }

  ghost predicate Expected(v: Variant, ds: seq<Ds>, copies: seq<nat>, n: nat, j: Job)
    requires CopiesOf(ds, copies)
  {
    || (exists i :: IsFull(ds, copies, n, i, j))
    || (exists i, k :: IsTile(v, ds, copies, n, i, k, j))
  }

  ghost predicate Planned(v: Variant, ds: seq<Ds>, copies: seq<nat>, n: nat, jobs: seq<Job>)
    requires CopiesOf(ds, copies)
  {
    DistinctJobs(jobs) && forall j :: j in jobs <==> Expected(v, ds, copies, n, j)
  }

  lemma {:induction false} PushTilesHas(v: Variant, ts: seq<Tile>, n: nat, copy: nat, jobs: seq<Job>)
    requires n <= |ts| && DistinctJobs(jobs)
    requires forall k, l :: 0 <= k < l < n ==> ts[k].cap != ts[l].cap
    requires forall k, j :: 0 <= k < n && j in jobs ==> j.orig != ts[k].cap
    ensures DistinctJobs(PushTiles(v, ts, n, copy, jobs))
    ensures forall j :: j in PushTiles(v, ts, n, copy, jobs) <==>
      j in jobs || exists k :: 0 <= k < n && Picked(v, ts, k) && j == SliceJob(ts[k], copy)
  {
    if n > 0 {
      PushTilesHas(v, ts, n - 1, copy, jobs);
      var rest := PushTiles(v, ts, n - 1, copy, jobs);
      assert forall j :: j in rest ==> j.orig != ts[n - 1].cap;
      assert forall i :: 0 <= i < |rest| ==> rest[i] in rest;
    }
  }

  lemma RemoveAtHas(jobs: seq<Job>, k: nat)
    requires k < |jobs| && DistinctJobs(jobs)
    ensures DistinctJobs(RemoveAt(jobs, k))
    ensures forall j :: j in RemoveAt(jobs, k) <==> j in jobs && j.orig != jobs[k].orig
  {
    var r := RemoveAt(jobs, k);
    forall j ensures j in r <==> j in jobs && j.orig != jobs[k].orig {
      if j in jobs && j.orig != jobs[k].orig {
        var i :| 0 <= i < |jobs| && jobs[i] == j;
        assert r[if i < k then i else i - 1] == j;
      }
      if j in r {
        var i :| 0 <= i < |r| && r[i] == j;
        assert jobs[if i < k then i else i + 1] == j;
      }
    }
  }

  // ---- What becomes of the entries, whatever they are ----

  // No entry is for a tile yet.
  ghost predicate NoTileEntered(ds: seq<Ds>, jobs: seq<Job>) {
    forall j, i, k :: j in jobs && 0 <= i < |ds| && ds[i].tiles.Some? && 0 <= k < |ds[i].tiles.value| ==> j.orig != ds[i].tiles.value[k].cap
  }

  // An entry that is not for one of the first n managed dataspaces stays.
  ghost predicate Stays(ds: seq<Ds>, n: nat, jobs: seq<Job>, j: Job) {
    j in jobs && forall i :: 0 <= i < n && i < |ds| && ds[i].tiles.Some? ==> ds[i].badge != j.orig
  }

  // An entry for one of them gives way to entries for the tiles picked.
  ghost predicate FromTile(v: Variant, ds: seq<Ds>, jobs: seq<Job>, i: nat, k: nat, full: Job, j: Job) {
    && i < |ds| && ds[i].tiles.Some? && full in jobs && full.orig == ds[i].badge
    && k < |ds[i].tiles.value| && Picked(v, ds[i].tiles.value, k) && j == SliceJob(ds[i].tiles.value[k], full.copy)
  }

  ghost predicate EntryAfter(v: Variant, ds: seq<Ds>, n: nat, jobs: seq<Job>, j: Job) {
    Stays(ds, n, jobs, j) || exists i: nat, k: nat, full: Job :: i < n && FromTile(v, ds, jobs, i, k, full, j)
  }

  ghost predicate ResolvedList(v: Variant, ds: seq<Ds>, n: nat, jobs: seq<Job>, l: seq<Job>) {
    DistinctJobs(l) && forall j :: j in l <==> EntryAfter(v, ds, n, jobs, j)
  }

  // The resolution of any list with one entry per dataspace at most, for all or some of the dataspaces
  // and maybe others, in any order.
  lemma {:induction false} ResolveHas(v: Variant, ds: seq<Ds>, n: nat, jobs: seq<Job>)
    requires n <= |ds| && DistinctBadges(ds) && DistinctJobs(jobs) && NoTileEntered(ds, jobs)
    ensures ResolvedList(v, ds, n, jobs, Resolve(v, ds, n, jobs))
  {
    if n > 0 {
      ResolveHas(v, ds, n - 1, jobs);
      ResolveNext(v, ds, n - 1, jobs, Resolve(v, ds, n - 1, jobs));
    }
  }

  lemma ResolveNext(v: Variant, ds: seq<Ds>, n: nat, jobs: seq<Job>, l: seq<Job>)
    requires n < |ds| && DistinctBadges(ds) && DistinctJobs(jobs) && NoTileEntered(ds, jobs) && ResolvedList(v, ds, n, jobs, l)
    ensures ResolvedList(v, ds, n + 1, jobs, ResolveOne(v, ds[n], l))
  {
    if ds[n].tiles.None? {
      forall j ensures EntryAfter(v, ds, n, jobs, j) <==> EntryAfter(v, ds, n + 1, jobs, j) {
      }
    } else {
      var k := FindByOrig(l, ds[n].badge);
      if k == |l| {
        NothingToResolve(v, ds, n, jobs, l);
      } else {
        EntryResolved(v, ds, n, jobs, l, k);
      }
    }
  }

  // An entry of the list for dataspace n, not yet resolved, is the one of the original list.
  lemma OwnEntry(v: Variant, ds: seq<Ds>, n: nat, jobs: seq<Job>, j: Job)
    requires n < |ds| && DistinctBadges(ds) && ds[n].tiles.Some? && j.orig == ds[n].badge
    ensures EntryAfter(v, ds, n, jobs, j) <==> j in jobs
  {
    forall i: nat, k: nat, full | i < n ensures !FromTile(v, ds, jobs, i, k, full, j) {
      assert k < |Slices(ds[i])| && ds[i].tiles.Some? ==> Slices(ds[i])[k].cap != ds[n].badge;
    }
  }

  lemma NothingToResolve(v: Variant, ds: seq<Ds>, n: nat, jobs: seq<Job>, l: seq<Job>)
    requires n < |ds| && DistinctBadges(ds) && ds[n].tiles.Some? && ResolvedList(v, ds, n, jobs, l)
    requires forall j :: j in l ==> j.orig != ds[n].badge
    ensures ResolvedList(v, ds, n + 1, jobs, l)
  {
    forall j | j in jobs ensures j.orig != ds[n].badge {
      if j.orig == ds[n].badge {
        OwnEntry(v, ds, n, jobs, j);
      }
    }
  }

  lemma {:induction false} EntryResolved(v: Variant, ds: seq<Ds>, n: nat, jobs: seq<Job>, l: seq<Job>, k: nat)
    requires n < |ds| && DistinctBadges(ds) && DistinctJobs(jobs) && NoTileEntered(ds, jobs) && ds[n].tiles.Some?
    requires ResolvedList(v, ds, n, jobs, l) && k < |l| && l[k].orig == ds[n].badge
    ensures ResolvedList(v, ds, n + 1, jobs, PushTiles(v, ds[n].tiles.value, |ds[n].tiles.value|, l[k].copy, RemoveAt(l, k)))
  {
    var ts, full, rest := ds[n].tiles.value, l[k], RemoveAt(l, k);
    RemoveAtHas(l, k);
    OwnEntry(v, ds, n, jobs, full);
    forall m, j | 0 <= m < |ts| && j in rest ensures j.orig != ts[m].cap {
      NotForTile(v, ds, n, jobs, j, m);
    }
    assert forall m :: 0 <= m < |ts| ==> ts[m] == Slices(ds[n])[m];
    PushTilesHas(v, ts, |ts|, full.copy, rest);
    forall j ensures j in PushTiles(v, ts, |ts|, full.copy, rest) <==> EntryAfter(v, ds, n + 1, jobs, j) {
      EntryNext(v, ds, n, jobs, full, j);
    }
  }

  // No entry but its own is for a tile of dataspace n.
  lemma NotForTile(v: Variant, ds: seq<Ds>, n: nat, jobs: seq<Job>, j: Job, m: nat)
    requires n < |ds| && DistinctBadges(ds) && NoTileEntered(ds, jobs) && ds[n].tiles.Some? && m < |ds[n].tiles.value|
    requires EntryAfter(v, ds, n, jobs, j)
    ensures j.orig != ds[n].tiles.value[m].cap
  {
    if i: nat, k: nat, full :| i < n && FromTile(v, ds, jobs, i, k, full, j) {
      assert Slices(ds[i])[k].cap == j.orig && Slices(ds[n])[m].cap == ds[n].tiles.value[m].cap;
    }
  }

  lemma EntryNext(v: Variant, ds: seq<Ds>, n: nat, jobs: seq<Job>, full: Job, j: Job)
    requires n < |ds| && DistinctBadges(ds) && DistinctJobs(jobs) && ds[n].tiles.Some? && full in jobs && full.orig == ds[n].badge
    ensures EntryAfter(v, ds, n + 1, jobs, j) <==>
      || (EntryAfter(v, ds, n, jobs, j) && j.orig != full.orig)
      || (exists k :: 0 <= k < |ds[n].tiles.value| && Picked(v, ds[n].tiles.value, k) && j == SliceJob(ds[n].tiles.value[k], full.copy))
  {
    if i: nat, k: nat, f :| i < n + 1 && FromTile(v, ds, jobs, i, k, f, j) {
      assert Slices(ds[i])[k].cap == j.orig;
      if i == n {
        SameOrig(jobs, f, full);
      }
    }
    if k: nat :| k < |ds[n].tiles.value| && Picked(v, ds[n].tiles.value, k) && j == SliceJob(ds[n].tiles.value[k], full.copy) {
      assert FromTile(v, ds, jobs, n, k, full, j);
    }
  }

  lemma SameOrig(jobs: seq<Job>, a: Job, b: Job)
    requires DistinctJobs(jobs) && a in jobs && b in jobs && a.orig == b.orig
    ensures a == b
  {
    var i :| 0 <= i < |jobs| && jobs[i] == a;
    var j :| 0 <= j < |jobs| && jobs[j] == b;
  }

  // ---- With one entry for every dataspace ----

  // The resolved list holds exactly the entries of unmanaged dataspaces and of the picked tiles.
  lemma {:induction false} ResolvePlanned(v: Variant, ds: seq<Ds>, copies: seq<nat>, n: nat, jobs: seq<Job>)
    requires n <= |ds| && CopiesOf(ds, copies) && DistinctBadges(ds) && Planned(v, ds, copies, 0, jobs)
    ensures Planned(v, ds, copies, n, Resolve(v, ds, n, jobs))
  {
    forall j, i, k | j in jobs && 0 <= i < |ds| && ds[i].tiles.Some? && 0 <= k < |ds[i].tiles.value|
      ensures j.orig != ds[i].tiles.value[k].cap
    {
      assert Expected(v, ds, copies, 0, j);
      var m: nat :| IsFull(ds, copies, 0, m, j);
      assert Slices(ds[i])[k].cap != ds[m].badge;
    }
    ResolveHas(v, ds, n, jobs);
    forall j ensures EntryAfter(v, ds, n, jobs, j) <==> Expected(v, ds, copies, n, j) {
      ResolvedIsExpected(v, ds, copies, n, jobs, j);
    }
  }

  lemma ResolvedIsExpected(v: Variant, ds: seq<Ds>, copies: seq<nat>, n: nat, jobs: seq<Job>, j: Job)
    requires n <= |ds| && CopiesOf(ds, copies) && DistinctBadges(ds) && Planned(v, ds, copies, 0, jobs)
    ensures EntryAfter(v, ds, n, jobs, j) <==> Expected(v, ds, copies, n, j)
  {
    if Stays(ds, n, jobs, j) {
      assert Expected(v, ds, copies, 0, j);
      var i: nat :| IsFull(ds, copies, 0, i, j);
      assert IsFull(ds, copies, n, i, j);
    }
    if i: nat, k: nat, full :| i < n && FromTile(v, ds, jobs, i, k, full, j) {
      assert Expected(v, ds, copies, 0, full);
      var m: nat :| IsFull(ds, copies, 0, m, full);
      assert IsTile(v, ds, copies, n, i, k, j);
    }
    if i: nat :| IsFull(ds, copies, n, i, j) {
      assert IsFull(ds, copies, 0, i, j) && Expected(v, ds, copies, 0, j);
    }
    if i: nat, k: nat :| IsTile(v, ds, copies, n, i, k, j) {
      var full := FullJob(ds[i], copies[i]);
      assert IsFull(ds, copies, 0, i, full) && Expected(v, ds, copies, 0, full);
      assert FromTile(v, ds, jobs, i, k, full, j);
    }
  }
}

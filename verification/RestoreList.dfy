// The list of memory to restore, told from the stored records.
module RestoreList {
  import opened Variants
  import opened Folding
  import opened InfoList
  import opened RamIdentify
  import opened CopyTable
  import opened StoredState
  import opened StoredRegions
  import opened Translation
  import opened RestoreState
  import opened MemoryPlan
  import opened RestoreRegions
  import opened RestoreSessions
  import opened RestoredState
  import opened RestoreMemory
  import opened SavedRecords

  // ---- The records of regions, in the order of the loops ----

  ghost function MapRegions(stored: seq<StoredMap>): (r: seq<seq<StoredRegion>>)
    ensures |r| == |stored| && forall k :: 0 <= k < |r| ==> r[k] == stored[k].kids
  {
    seq(|stored|, k requires 0 <= k < |stored| => stored[k].kids)
  }

  ghost function RmRegions(stored: seq<StoredRmSession>): (r: seq<seq<StoredRegion>>)
    ensures |r| == |stored| && forall i :: 0 <= i < |r| ==> r[i] == Joined(MapRegions(stored[i].kids), |stored[i].kids|)
  {
    seq(|stored|, i requires 0 <= i < |stored| => Joined(MapRegions(stored[i].kids), |stored[i].kids|))
  }

  ghost function AllRegions(s: StoredChild): seq<StoredRegion>
    requires s.pd != []
  {
    Joined(MapRegions(s.pd[0].session.kids), |s.pd[0].session.kids|) + Joined(RmRegions(s.rm), |s.rm|)
  }

  lemma {:induction false} InJoined<T>(parts: seq<seq<T>>, n: nat, x: T)
    requires n <= |parts|
    ensures x in Joined(parts, n) <==> exists i :: 0 <= i < n && x in parts[i]
  {
    if n > 0 {
      InJoined(parts, n - 1, x);
    }
  }

  lemma {:induction false} InMapRegions(stored: seq<StoredMap>, q: StoredRegion)
    ensures q in Joined(MapRegions(stored), |stored|) <==> exists m :: m in stored && q in m.kids
  {
    InJoined(MapRegions(stored), |stored|, q);
    if m :| m in stored && q in m.kids {
      var k :| 0 <= k < |stored| && stored[k] == m;
      assert q in MapRegions(stored)[k];
    }
  }

  lemma {:induction false} InRmRegions(stored: seq<StoredRmSession>, q: StoredRegion)
    ensures q in Joined(RmRegions(stored), |stored|) <==> exists r, m :: r in stored && m in r.kids && q in m.kids
  {
    InJoined(RmRegions(stored), |stored|, q);
    if i :| 0 <= i < |stored| && q in RmRegions(stored)[i] {
      InMapRegions(stored[i].kids, q);
    }
    if r, m :| r in stored && m in r.kids && q in m.kids {
      var i :| 0 <= i < |stored| && stored[i] == r;
      InMapRegions(stored[i].kids, q);
      assert q in RmRegions(stored)[i];
    }
  }

  lemma AllRegionsHas(s: StoredChild, q: StoredRegion)
    requires |s.pd| == 1
    ensures q in AllRegions(s) <==> exists m :: MapStored(s, m) && q in m.kids
  {
    InMapRegions(s.pd[0].session.kids, q);
    InRmRegions(s.rm, q);
    assert s.pd == [s.pd[0]];
    assert forall m :: MapStored(s, m) <==> m in s.pd[0].session.kids || exists r :: r in s.rm && m in r.kids;
  }

  // The size of the first record of dataspace b.
  ghost function FirstSize(s: StoredChild, b: nat): nat
    requires s.pd != []
  {
    var i := FirstIndex(AllRegions(s), (q: StoredRegion) => q.dsBadge == b);
    if i < |AllRegions(s)| then AllRegions(s)[i].size else 0
  }

  // ---- Wants and records ----

  // A record wants its copy restored into the dataspace that stands for its own, over its size.
  ghost predicate WantFor(all: seq<CkptResto>, maps: seq<nat>, q: StoredRegion, w: Want) {
    && Translate(all, q.dsBadge) == Some(w.ds) && w.copy == CopyBadge(q) && w.size == q.size && (w.isMap <==> q.dsBadge in maps)
  }

  ghost predicate Aligned(all: seq<CkptResto>, maps: seq<nat>, regs: seq<StoredRegion>, ws: seq<Want>) {
    |ws| == |regs| && forall i :: 0 <= i < |regs| ==> WantFor(all, maps, regs[i], ws[i])
  }

  lemma {:induction false} AlignedJoined(all: seq<CkptResto>, maps: seq<nat>, regs: seq<seq<StoredRegion>>, ws: seq<seq<Want>>, n: nat)
    requires n <= |regs| == |ws| && forall i :: 0 <= i < n ==> Aligned(all, maps, regs[i], ws[i])
    ensures Aligned(all, maps, Joined(regs, n), Joined(ws, n))
  {
    if n > 0 {
      AlignedJoined(all, maps, regs, ws, n - 1);
    }
  }

  // No lookup of a bootstrapped region by its address is misled.
  ghost predicate NotMisled(tr: seq<CkptResto>, all: seq<CkptResto>, regions: seq<Region>, stored: seq<StoredRegion>) {
    forall i :: 0 <= i < |stored| && stored[i].bootstrapped && Translate(all, stored[i].dsBadge).Some? ==>
      && Separate(Reattached(tr, stored, i) + regions)
      && !MisledAt(Reattached(tr, stored, i) + regions, stored[i].relAddr, Translate(all, stored[i].dsBadge).value)
  }

  lemma FoundAt(now: seq<Region>, addr: nat, r: Region)
    requires Separate(now) && r in now && r.relAddr == addr && !MisledAt(now, addr, r.dsBadge)
    ensures RegionAt(now, addr).Some? && RegionAt(now, addr).value.dsBadge == r.dsBadge
  {
    var own :| 0 <= own < |now| && now[own] == r;
    FoundUnlessMisled(now, addr, own);
  }

  // What a region map is like when its attachments can be restored and none is taken for another one.
  // Folded like Extends.
  ghost predicate MapReady(tr: seq<CkptResto>, all: seq<CkptResto>, regions: seq<Region>, stored: seq<StoredRegion>) {
    forall key: nat {:trigger Unfold(key)} :: Unfold(key) ==>
      && RegionsRestorable(tr, regions, stored, |stored|) && OwnAttachments(all, stored, regions) && NotMisled(tr, all, regions, stored)
  }

  lemma {:induction false} OpenMapReady(tr: seq<CkptResto>, all: seq<CkptResto>, regions: seq<Region>, stored: seq<StoredRegion>)
    ensures MapReady(tr, all, regions, stored) <==>
      && RegionsRestorable(tr, regions, stored, |stored|) && OwnAttachments(all, stored, regions) && NotMisled(tr, all, regions, stored)
  {
    assert Unfold(0);
  }

  // So every region is entered with the dataspace that stands for its own.
  lemma {:induction false} EnteredRight(tr: seq<CkptResto>, all: seq<CkptResto>, regions: seq<Region>, stored: seq<StoredRegion>, i: nat)
    requires Extended(tr, all) && MapReady(tr, all, regions, stored) && i < |stored|
    ensures Translate(all, stored[i].dsBadge) == Some(AttachedDs(tr, regions, stored, i))
  {
    OpenMapReady(tr, all, regions, stored);
    if stored[i].bootstrapped {
      assert HasRenamed(all, stored[i], regions);
      var r :| r in regions && Renames(all, stored[i], r);
      FoundAt(Reattached(tr, stored, i) + regions, stored[i].relAddr, r);
    } else {
      RegionsRestorableIff(tr, regions, stored, |stored|);
      OpenRegionRestorable(tr, regions, stored, i);
      ReattachedEntry(tr, regions, stored, i);
      ExtendedTranslates(tr, all, stored[i].dsBadge);
    }
  }

  lemma MapAligned(tr: seq<CkptResto>, all: seq<CkptResto>, maps: seq<nat>, regions: seq<Region>, stored: seq<StoredRegion>)
    requires Extended(tr, all) && MapReady(tr, all, regions, stored)
    ensures Aligned(all, maps, stored, Wants(tr, regions, stored, maps))
  {
    forall i | 0 <= i < |stored| ensures WantFor(all, maps, stored[i], Wants(tr, regions, stored, maps)[i]) {
      EnteredRight(tr, all, regions, stored, i);
    }
  }

  lemma {:induction false} MapsAligned(tr: seq<CkptResto>, all: seq<CkptResto>, maps: seq<nat>, stored: seq<StoredMap>, own: seq<seq<Region>>)
    requires Extended(tr, all) && |own| == |stored| && forall k :: 0 <= k < |stored| ==> MapReady(tr, all, own[k], stored[k].kids)
    ensures Aligned(all, maps, Joined(MapRegions(stored), |stored|), Joined(MapWants(tr, maps, stored, own), |stored|))
  {
    forall k | 0 <= k < |stored| ensures Aligned(all, maps, MapRegions(stored)[k], MapWants(tr, maps, stored, own)[k]) {
      MapAligned(tr, all, maps, own[k], stored[k].kids);
    }
    AlignedJoined(all, maps, MapRegions(stored), MapWants(tr, maps, stored, own), |stored|);
  }

  // All maps of the stored state and of the child are like that.
  ghost predicate AllMapsReady(tr: seq<CkptResto>, all: seq<CkptResto>, c: Child, s: StoredChild)
    requires c.pd != [] && s.pd != [] && ThreeMaps(s.pd[0], c.pd[0])
  {
    && (forall k :: 0 <= k < 3 ==> MapReady(tr, all, c.pd[0].session.kids[k].kids, s.pd[0].session.kids[k].kids))
    && (forall i, k :: 0 <= i < |s.rm| && 0 <= k < |s.rm[i].kids| ==> MapReady(tr, all, [], s.rm[i].kids[k].kids))
  }

  lemma StateAligned(tr: seq<CkptResto>, all: seq<CkptResto>, maps: seq<nat>, c: Child, s: StoredChild)
    requires c.pd != [] && s.pd != [] && ThreeMaps(s.pd[0], c.pd[0]) && Extended(tr, all) && AllMapsReady(tr, all, c, s)
    ensures Aligned(all, maps, AllRegions(s), StateWants(tr, maps, c, s))
  {
    MapsAligned(tr, all, maps, s.pd[0].session.kids, Kids(c.pd[0].session.kids));
    forall i | 0 <= i < |s.rm| ensures Aligned(all, maps, RmRegions(s.rm)[i], RmsWants(tr, maps, s.rm)[i]) {
      MapsAligned(tr, all, maps, s.rm[i].kids, NoRegions(|s.rm[i].kids|));
    }
    AlignedJoined(all, maps, RmRegions(s.rm), RmsWants(tr, maps, s.rm), |s.rm|);
  }

  // ---- The entries of regions ----

  // The first want of a copy.
  ghost predicate FirstWant(ws: seq<Want>, n: nat, copy: nat, i: int) {
    && 0 <= i < n <= |ws| && !ws[i].isMap && ws[i].copy == copy
    && forall j :: 0 <= j < i ==> ws[j].isMap || ws[j].copy != copy
  }

  ghost predicate IsFirstWanted(ws: seq<Want>, n: nat, j: Job) {
    exists i :: FirstWant(ws, n, j.copy, i) && j == Job(ws[i].ds, ws[i].copy, 0, ws[i].size)
  }

  lemma {:induction false} FirstWantExists(ws: seq<Want>, n: nat, copy: nat, i: nat)
    requires i < n <= |ws| && !ws[i].isMap && ws[i].copy == copy
    ensures exists k :: FirstWant(ws, n, copy, k)
  {
    if j :| 0 <= j < i && !ws[j].isMap && ws[j].copy == copy {
      FirstWantExists(ws, n, copy, j);
    } else {
      assert FirstWant(ws, n, copy, i);
    }
  }

  // Of each copy that is not entered yet the first want is entered.
  lemma {:induction false} RegionJobsAre(ws: seq<Want>, jobs: seq<Job>, n: nat)
    requires n <= |ws|
    ensures forall j :: j in RegionJobs(ws, jobs, n) <==> j in jobs || (!HasCopy(jobs, j.copy) && IsFirstWanted(ws, n, j))
  {
    if n > 0 {
      RegionJobsAre(ws, jobs, n - 1);
      var w, before := ws[n - 1], RegionJobs(ws, jobs, n - 1);
      forall j ensures j in RegionJobs(ws, jobs, n) <==> j in jobs || (!HasCopy(jobs, j.copy) && IsFirstWanted(ws, n, j)) {
        NextWanted(ws, jobs, n, j);
      }
    }
  }

  lemma NextWanted(ws: seq<Want>, jobs: seq<Job>, n: nat, j: Job)
    requires 0 < n <= |ws|
    requires forall k :: k in RegionJobs(ws, jobs, n - 1) <==> k in jobs || (!HasCopy(jobs, k.copy) && IsFirstWanted(ws, n - 1, k))
    ensures j in RegionJobs(ws, jobs, n) <==> j in jobs || (!HasCopy(jobs, j.copy) && IsFirstWanted(ws, n, j))
  {
    var w, before := ws[n - 1], RegionJobs(ws, jobs, n - 1);
    var own := Job(w.ds, w.copy, 0, w.size);
    if HasCopy(before, w.copy) {
      var k :| k in before && k.copy == w.copy;
    }
    if IsFirstWanted(ws, n - 1, j) {
      var i :| FirstWant(ws, n - 1, j.copy, i) && j == Job(ws[i].ds, ws[i].copy, 0, ws[i].size);
      assert FirstWant(ws, n, j.copy, i);
    }
    if IsFirstWanted(ws, n, j) && !IsFirstWanted(ws, n - 1, j) {
      var i :| FirstWant(ws, n, j.copy, i) && j == Job(ws[i].ds, ws[i].copy, 0, ws[i].size);
      assert i == n - 1 by {
        if i < n - 1 {
          assert FirstWant(ws, n - 1, j.copy, i);
        }
      }
    }
    if !w.isMap && !HasCopy(before, w.copy) && !HasCopy(jobs, w.copy) {
      NoneBefore(ws, jobs, n);
      assert FirstWant(ws, n, w.copy, n - 1);
    }
  }

  lemma NoneBefore(ws: seq<Want>, jobs: seq<Job>, n: nat)
    requires 0 < n <= |ws|
    requires forall k :: k in RegionJobs(ws, jobs, n - 1) <==> k in jobs || (!HasCopy(jobs, k.copy) && IsFirstWanted(ws, n - 1, k))
    requires !HasCopy(RegionJobs(ws, jobs, n - 1), ws[n - 1].copy) && !HasCopy(jobs, ws[n - 1].copy)
    ensures forall i :: 0 <= i < n - 1 ==> ws[i].isMap || ws[i].copy != ws[n - 1].copy
  {
    forall i | 0 <= i < n - 1 && !ws[i].isMap ensures ws[i].copy != ws[n - 1].copy {
      if ws[i].copy == ws[n - 1].copy {
        WantedHasCopy(ws, RegionJobs(ws, jobs, n - 1), jobs, n - 1, i);
      }
    }
  }

  lemma WantedHasCopy(ws: seq<Want>, r: seq<Job>, jobs: seq<Job>, n: nat, i: nat)
    requires i < n <= |ws| && !ws[i].isMap && !HasCopy(jobs, ws[i].copy)
    requires forall k :: k in r <==> k in jobs || (!HasCopy(jobs, k.copy) && IsFirstWanted(ws, n, k))
    ensures HasCopy(r, ws[i].copy)
  {
    FirstWantExists(ws, n, ws[i].copy, i);
    var k :| FirstWant(ws, n, ws[i].copy, k);
    var j := Job(ws[k].ds, ws[k].copy, 0, ws[k].size);
    assert IsFirstWanted(ws, n, j) && j in r;
  }

  // ---- The whole list ----

  // RAM dataspaces are entered by their records, any other recorded dataspace by its first record.
  ghost predicate RamEntry(all: seq<CkptResto>, d: StoredRamDs, j: Job) {
    Translate(all, d.badge) == Some(j.orig) && j == Job(j.orig, d.copy, 0, d.size)
  }

  ghost predicate RegionEntry(all: seq<CkptResto>, s: StoredChild, q: StoredRegion, j: Job)
    requires s.pd != []
  {
    Translate(all, q.dsBadge) == Some(j.orig) && j == Job(j.orig, CopyBadge(q), 0, FirstSize(s, q.dsBadge))
  }

  ghost predicate IsRamEntry(all: seq<CkptResto>, s: StoredChild, j: Job) {
    exists d :: RamStored(s, d) && RamEntry(all, d, j)
  }

  ghost predicate IsRegionEntry(all: seq<CkptResto>, s: StoredChild, j: Job)
    requires s.pd != []
  {
    exists q :: UnknownStored(s, q) && RegionEntry(all, s, q, j)
  }

  // Folded like Extends.
  ghost predicate Entered(all: seq<CkptResto>, s: StoredChild, jobs: seq<Job>) {
    s.pd != [] && forall key: nat {:trigger Unfold(key)} :: Unfold(key) ==> EnteredAre(all, s, jobs)
  }

  ghost predicate EnteredAre(all: seq<CkptResto>, s: StoredChild, jobs: seq<Job>)
    requires s.pd != []
  {
    && DistinctCopies(jobs) && DistinctJobs(jobs)
    && (forall j :: j in jobs <==> IsRamEntry(all, s, j) || IsRegionEntry(all, s, j))
    && (forall d :: RamStored(s, d) ==> Translate(all, d.badge).Some?)
    && (forall q :: RegionStored(s, q) ==> Translate(all, q.dsBadge).Some?)
  }

  lemma OpenEntered(all: seq<CkptResto>, s: StoredChild, jobs: seq<Job>)
    ensures Entered(all, s, jobs) <==> s.pd != [] && EnteredAre(all, s, jobs)
  {
    assert Unfold(0);
  }

  // Every dataspace saved has a copy of its own.
  ghost predicate CopiesDiffer(ds: seq<Ds>, table: seq<CopyEntry>) {
    forall b, b' :: Listed(ds, b) && Listed(ds, b') && CopyOf(table, b) == CopyOf(table, b') ==> b == b'
  }

  // ---- RAM dataspaces ----

  ghost predicate AllTranslated(tr: seq<CkptResto>, stored: seq<StoredRamDs>) {
    forall i :: 0 <= i < |stored| ==> Translate(tr, stored[i].badge).Some?
  }

  ghost predicate IsRamJob(tr: seq<CkptResto>, stored: seq<StoredRamDs>, n: nat, j: Job) {
    exists i :: 0 <= i < n && i < |stored| && RamEntry(tr, stored[i], j)
  }

  lemma {:induction false} RamJobsHas(tr: seq<CkptResto>, stored: seq<StoredRamDs>, n: nat)
    requires n <= |stored| && AllTranslated(tr, stored)
    requires forall i, j :: 0 <= i < j < |stored| ==> stored[i].copy != stored[j].copy
    ensures DistinctCopies(RamJobs(tr, stored, [], n))
    ensures forall j :: j in RamJobs(tr, stored, [], n) <==> IsRamJob(tr, stored, n, j)
  {
    if n > 0 {
      RamJobsHas(tr, stored, n - 1);
      var rest, s := RamJobs(tr, stored, [], n - 1), stored[n - 1];
      var own := Job(Translate(tr, s.badge).value, s.copy, 0, s.size);
      forall i | 0 <= i < |rest| ensures rest[i].copy != own.copy {
        assert rest[i] in rest && IsRamJob(tr, stored, n - 1, rest[i]);
      }
      forall j ensures IsRamJob(tr, stored, n, j) <==> j == own || IsRamJob(tr, stored, n - 1, j) {
      }
    }
  }

  lemma RamCopies(ds: seq<Ds>, table: seq<CopyEntry>, s: StoredChild)
    requires CopiesDiffer(ds, table) && RecordsOf(s, ds, table) && |s.ram| == 1 && DistinctBy(s.ram[0].kids, RamDsKey())
    ensures var stored := s.ram[0].kids;
      forall i, j :: 0 <= i < j < |stored| ==> stored[i].copy != stored[j].copy
  {
    var stored := s.ram[0].kids;
    forall i | 0 <= i < |stored| ensures Listed(ds, stored[i].badge) && stored[i].copy == CopyOf(table, stored[i].badge) {
      assert RamStored(s, stored[i]);
    }
    forall i, j | 0 <= i < j < |stored| ensures stored[i].copy != stored[j].copy {
      assert RamDsKey()(stored[i]) != RamDsKey()(stored[j]);
    }
  }

  lemma {:induction false} RamEntries(tr: seq<CkptResto>, all: seq<CkptResto>, ds: seq<Ds>, table: seq<CopyEntry>, s: StoredChild)
    requires Extended(tr, all) && CopiesDiffer(ds, table) && RecordsOf(s, ds, table) && |s.ram| == 1
    requires DistinctBy(s.ram[0].kids, RamDsKey()) && AllTranslated(tr, s.ram[0].kids)
    ensures var jobs := RamJobs(tr, s.ram[0].kids, [], |s.ram[0].kids|);
      DistinctCopies(jobs) && forall j :: j in jobs <==> IsRamEntry(all, s, j)
    ensures forall d :: RamStored(s, d) ==> Translate(all, d.badge).Some?
  {
    var stored, jobs := s.ram[0].kids, RamJobs(tr, s.ram[0].kids, [], |s.ram[0].kids|);
    RamCopies(ds, table, s);
    RamJobsHas(tr, stored, |stored|);
    forall i | 0 <= i < |stored| ensures Translate(all, stored[i].badge) == Translate(tr, stored[i].badge) && RamStored(s, stored[i]) {
      ExtendedTranslates(tr, all, stored[i].badge);
    }
    forall d | RamStored(s, d) ensures exists i :: 0 <= i < |stored| && stored[i] == d {
    }
    forall j ensures IsRamJob(tr, stored, |stored|, j) <==> IsRamEntry(all, s, j) {
      if IsRamEntry(all, s, j) {
        var d :| RamStored(s, d) && RamEntry(all, d, j);
        var i :| 0 <= i < |stored| && stored[i] == d;
        assert RamEntry(tr, stored[i], j);
      }
      if i :| 0 <= i < |stored| && RamEntry(tr, stored[i], j) {
        assert RamEntry(all, stored[i], j);
      }
    }
  }

  // ---- Both together ----

  // What the list has to do with the table of the checkpoint.
  ghost predicate EntersAs(all: seq<CkptResto>, ds: seq<Ds>, table: seq<CopyEntry>, j: Job, b: nat) {
    Listed(ds, b) && Translate(all, b) == Some(j.orig) && j.copy == CopyOf(table, b)
  }

  lemma EntryIsOf(all: seq<CkptResto>, ds: seq<Ds>, table: seq<CopyEntry>, s: StoredChild, j: Job) returns (b: nat)
    requires s.pd != [] && RecordsOf(s, ds, table) && (IsRamEntry(all, s, j) || IsRegionEntry(all, s, j))
    ensures EntersAs(all, ds, table, j, b)
  {
    if IsRamEntry(all, s, j) {
      var d :| RamStored(s, d) && RamEntry(all, d, j);
      b := d.badge;
    } else {
      var q :| UnknownStored(s, q) && RegionEntry(all, s, q, j);
      b := q.dsBadge;
    }
  }

  // Distinct copies are distinct dataspaces, and those are restored into distinct ones.
  lemma EntriesApart(all: seq<CkptResto>, ds: seq<Ds>, table: seq<CopyEntry>, s: StoredChild, jobs: seq<Job>)
    requires Faithful(all) && s.pd != [] && RecordsOf(s, ds, table) && DistinctCopies(jobs)
    requires forall j :: j in jobs ==> IsRamEntry(all, s, j) || IsRegionEntry(all, s, j)
    ensures DistinctJobs(jobs)
  {
    forall i, j | 0 <= i < j < |jobs| ensures jobs[i].orig != jobs[j].orig {
      assert jobs[i] in jobs && jobs[j] in jobs;
      var b := EntryIsOf(all, ds, table, s, jobs[i]);
      var b' := EntryIsOf(all, ds, table, s, jobs[j]);
      TranslateIff(all, b);
      TranslateIff(all, b');
      TranslateOneToOne(all, b, b');
    }
  }

  // The copy of a recorded dataspace, and that only its records have it.
  lemma CopyOfRecord(ds: seq<Ds>, table: seq<CopyEntry>, s: StoredChild, q: StoredRegion)
    requires RecordsOf(s, ds, table) && CopiesDiffer(ds, table) && RegionStored(s, q)
    ensures forall q' :: RegionStored(s, q') ==> (CopyBadge(q') == CopyBadge(q) <==> q'.dsBadge == q.dsBadge)
    ensures forall d :: RamStored(s, d) ==> (d.copy == CopyBadge(q) <==> d.badge == q.dsBadge)
  {
    assert Listed(ds, q.dsBadge) && CopyBadge(q) == CopyOf(table, q.dsBadge);
    forall q' | RegionStored(s, q') ensures Listed(ds, q'.dsBadge) && CopyBadge(q') == CopyOf(table, q'.dsBadge) {
    }
    forall d | RamStored(s, d) ensures Listed(ds, d.badge) && d.copy == CopyOf(table, d.badge) {
    }
  }

  // The first want of a copy is that of the first record.
  lemma {:induction false} FirstWantIsFirst(all: seq<CkptResto>, maps: seq<nat>, ds: seq<Ds>, table: seq<CopyEntry>, s: StoredChild, ws: seq<Want>, i: nat)
    requires |s.pd| == 1 && AreMaps(maps, s) && Aligned(all, maps, AllRegions(s), ws) && RecordsOf(s, ds, table) && CopiesDiffer(ds, table)
    requires i < |ws| && FirstWant(ws, |ws|, ws[i].copy, i)
    ensures var q := AllRegions(s)[i];
      RegionStored(s, q) && Translate(all, q.dsBadge) == Some(ws[i].ds) && ws[i].copy == CopyBadge(q) && ws[i].size == FirstSize(s, q.dsBadge)
  {
    var regs, q := AllRegions(s), AllRegions(s)[i];
    assert WantFor(all, maps, regs[i], ws[i]);
    AllRegionsHas(s, q);
    CopyOfRecord(ds, table, s, q);
    forall j | 0 <= j < i ensures regs[j].dsBadge != q.dsBadge {
      assert WantFor(all, maps, regs[j], ws[j]);
      AllRegionsHas(s, regs[j]);
    }
    assert FirstIndex(regs, (p: StoredRegion) => p.dsBadge == q.dsBadge) == i;
  }

  lemma RecordIsWanted(all: seq<CkptResto>, maps: seq<nat>, ds: seq<Ds>, table: seq<CopyEntry>, s: StoredChild, ws: seq<Want>,
                       q: StoredRegion) returns (i: nat)
    requires |s.pd| == 1 && AreMaps(maps, s) && Aligned(all, maps, AllRegions(s), ws) && RecordsOf(s, ds, table) && CopiesDiffer(ds, table)
    requires RegionStored(s, q)
    ensures i < |ws| && FirstWant(ws, |ws|, CopyBadge(q), i) && ws[i].copy == CopyBadge(q) && AllRegions(s)[i].dsBadge == q.dsBadge
  {
    var regs := AllRegions(s);
    AllRegionsHas(s, q);
    var n :| 0 <= n < |regs| && regs[n] == q;
    assert WantFor(all, maps, regs[n], ws[n]);
    FirstWantExists(ws, |ws|, CopyBadge(q), n);
    i :| FirstWant(ws, |ws|, CopyBadge(q), i);
    assert WantFor(all, maps, regs[i], ws[i]);
    AllRegionsHas(s, regs[i]);
    CopyOfRecord(ds, table, s, q);
  }

  // What is known of the wants and of the records.  Folded like Extends.
  ghost predicate Told(all: seq<CkptResto>, maps: seq<nat>, ds: seq<Ds>, table: seq<CopyEntry>, s: StoredChild, ws: seq<Want>) {
    |s.pd| == 1 && forall key: nat {:trigger Unfold(key)} :: Unfold(key) ==>
      AreMaps(maps, s) && Aligned(all, maps, AllRegions(s), ws) && RecordsOf(s, ds, table) && CopiesDiffer(ds, table)
  }

  ghost predicate RamHas(all: seq<CkptResto>, s: StoredChild, ram: seq<Job>) {
    (forall k :: k in ram <==> IsRamEntry(all, s, k)) && (forall d :: RamStored(s, d) ==> Translate(all, d.badge).Some?)
  }

  lemma RamCopyEntered(all: seq<CkptResto>, s: StoredChild, ram: seq<Job>, d: StoredRamDs)
    requires RamHas(all, s, ram) && RamStored(s, d)
    ensures HasCopy(ram, d.copy)
  {
    var k := Job(Translate(all, d.badge).value, d.copy, 0, d.size);
    assert RamEntry(all, d, k) && k in ram;
  }

  lemma WantedIsEntry(all: seq<CkptResto>, maps: seq<nat>, ds: seq<Ds>, table: seq<CopyEntry>, s: StoredChild, ws: seq<Want>, ram: seq<Job>, j: Job)
    requires Told(all, maps, ds, table, s, ws) && RamHas(all, s, ram)
    requires !HasCopy(ram, j.copy) && IsFirstWanted(ws, |ws|, j)
    ensures IsRegionEntry(all, s, j)
  {
    assert Unfold(0);
    var i :| FirstWant(ws, |ws|, j.copy, i) && j == Job(ws[i].ds, ws[i].copy, 0, ws[i].size);
    FirstWantIsFirst(all, maps, ds, table, s, ws, i);
    var q := AllRegions(s)[i];
    CopyOfRecord(ds, table, s, q);
    forall d | RamStored(s, d) ensures HasCopy(ram, d.copy) {
      RamCopyEntered(all, s, ram, d);
    }
    assert UnknownStored(s, q) && RegionEntry(all, s, q, j);
  }

  lemma EntryIsWanted(all: seq<CkptResto>, maps: seq<nat>, ds: seq<Ds>, table: seq<CopyEntry>, s: StoredChild, ws: seq<Want>, ram: seq<Job>, j: Job)
    requires Told(all, maps, ds, table, s, ws) && RamHas(all, s, ram) && IsRegionEntry(all, s, j)
    ensures !HasCopy(ram, j.copy) && IsFirstWanted(ws, |ws|, j)
  {
    assert Unfold(0);
    var q :| UnknownStored(s, q) && RegionEntry(all, s, q, j);
    var i := RecordIsWanted(all, maps, ds, table, s, ws, q);
    FirstWantIsFirst(all, maps, ds, table, s, ws, i);
    CopyOfRecord(ds, table, s, q);
    assert j == Job(ws[i].ds, ws[i].copy, 0, ws[i].size);
  }

  lemma {:induction false} RecordTranslates(all: seq<CkptResto>, maps: seq<nat>, ds: seq<Ds>, table: seq<CopyEntry>, s: StoredChild,
                                            ws: seq<Want>, q: StoredRegion)
    requires Told(all, maps, ds, table, s, ws) && RegionStored(s, q)
    ensures Translate(all, q.dsBadge).Some?
  {
    assert Unfold(0);
    var i := RecordIsWanted(all, maps, ds, table, s, ws, q);
    assert WantFor(all, maps, AllRegions(s)[i], ws[i]);
  }

  lemma ToldApart(all: seq<CkptResto>, maps: seq<nat>, ds: seq<Ds>, table: seq<CopyEntry>, s: StoredChild, ws: seq<Want>, jobs: seq<Job>)
    requires Faithful(all) && Told(all, maps, ds, table, s, ws) && DistinctCopies(jobs)
    requires forall j :: j in jobs ==> IsRamEntry(all, s, j) || IsRegionEntry(all, s, j)
    ensures DistinctJobs(jobs)
  {
    assert Unfold(0);
    EntriesApart(all, ds, table, s, jobs);
  }

  lemma {:induction false} AllEntries(all: seq<CkptResto>, maps: seq<nat>, ds: seq<Ds>, table: seq<CopyEntry>, s: StoredChild, ws: seq<Want>, ram: seq<Job>)
    requires Faithful(all) && Told(all, maps, ds, table, s, ws) && RamHas(all, s, ram) && DistinctCopies(ram)
    ensures Entered(all, s, RegionJobs(ws, ram, |ws|))
  {
    var jobs := RegionJobs(ws, ram, |ws|);
    RegionJobsOnce(ws, ram, |ws|);
    RegionJobsAre(ws, ram, |ws|);
    forall j ensures j in jobs <==> IsRamEntry(all, s, j) || IsRegionEntry(all, s, j) {
      if j in jobs && j !in ram {
        WantedIsEntry(all, maps, ds, table, s, ws, ram, j);
      }
      if IsRegionEntry(all, s, j) {
        EntryIsWanted(all, maps, ds, table, s, ws, ram, j);
      }
    }
    ToldApart(all, maps, ds, table, s, ws, jobs);
    forall q | RegionStored(s, q) ensures Translate(all, q.dsBadge).Some? {
      RecordTranslates(all, maps, ds, table, s, ws, q);
    }
    OpenEntered(all, s, jobs);
  }

  // ---- From a restore ----

  ghost predicate NothingMisled(tr: seq<CkptResto>, all: seq<CkptResto>, c: Child, s: StoredChild)
    requires c.pd != [] && s.pd != [] && ThreeMaps(s.pd[0], c.pd[0])
  {
    && (forall k :: 0 <= k < 3 ==> NotMisled(tr, all, c.pd[0].session.kids[k].kids, s.pd[0].session.kids[k].kids))
    && (forall i, k :: 0 <= i < |s.rm| && 0 <= k < |s.rm[i].kids| ==> NotMisled(tr, all, [], s.rm[i].kids[k].kids))
  }

  // A restore that got through with s, into a child that had the bootstrapped attachments before it, and without
  // a misled lookup.  all extends its translation by dataspaces of unknown origin.
  ghost predicate RestoredInto(o: Restoration, all: seq<CkptResto>, s: StoredChild) {
    && ComesTo(o, s) && Extended(o.b.tr, all)
    && FreshAttachments(all, o.start, s) && NothingMisled(o.b.tr, all, o.start, s)
  }

  lemma MapsReady(o: Restoration, all: seq<CkptResto>, s: StoredChild)
    requires RestoredInto(o, all, s)
    ensures AllMapsReady(o.b.tr, all, o.start, s)
  {
    OpenComesTo(o, s);
    forall k | 0 <= k < 3 ensures MapReady(o.b.tr, all, o.start.pd[0].session.kids[k].kids, s.pd[0].session.kids[k].kids) {
      assert MapRestorable(o.b.tr, o.made.pd, s.pd[0].session.kids[k], o.start.pd[0].session.kids[k]);
    }
    forall i, k | 0 <= i < |s.rm| && 0 <= k < |s.rm[i].kids| ensures MapReady(o.b.tr, all, [], s.rm[i].kids[k].kids) {
      assert RmRestorable(o.b.tr, o.made.pd, s.rm[i]) && NewMapRestorable(o.b.tr, o.made.pd, s.rm[i].kids[k]);
    }
  }

  lemma RamRecordsApart(f: Variant, next: nat, c: Child, s: StoredChild)
    requires BadgesFit(next, c, s) && Restorable(f, c, s)
    ensures DistinctBy(s.ram[0].kids, RamDsKey())
  {
    OpenBadgesFit(next, c, s);
    assert s.ram[0] in s.ram;
    DistinctRecords(s.ram[0].kids);
  }

  // The list a restore collects: each copy once and each dataspace once; every recorded RAM dataspace over its
  // size, and every other recorded dataspace over the size of its first record.
  lemma JobsEntered(o: Restoration, all: seq<CkptResto>, s: StoredChild, ds: seq<Ds>, table: seq<CopyEntry>)
    requires RestoredInto(o, all, s) && CopiesDiffer(ds, table) && RecordsOf(s, ds, table)
    ensures Entered(all, s, o.jobs)
  {
    OpenComesTo(o, s);
    RamRecordsApart(o.variant, o.next, o.start, s);
    MapsReady(o, all, s);
    ListEntered(o.b.tr, all, o.start, s, o.maps, o.jobs, ds, table);
  }

  lemma ListEntered(tr: seq<CkptResto>, all: seq<CkptResto>, c: Child, s: StoredChild, maps: seq<nat>, jobs: seq<Job>,
                    ds: seq<Ds>, table: seq<CopyEntry>)
    requires c.pd != [] && |s.pd| == 1 && ThreeMaps(s.pd[0], c.pd[0]) && AreMaps(maps, s) && Extended(tr, all) && AllMapsReady(tr, all, c, s)
    requires |s.ram| == 1 && DistinctBy(s.ram[0].kids, RamDsKey()) && MemoryCollected(tr, maps, c, s, jobs)
    requires CopiesDiffer(ds, table) && RecordsOf(s, ds, table)
    ensures Entered(all, s, jobs)
  {
    StateAligned(tr, all, maps, c, s);
    RamEntries(tr, all, ds, table, s);
    AllEntries(all, maps, ds, table, s, StateWants(tr, maps, c, s), RamJobs(tr, s.ram[0].kids, [], |s.ram[0].kids|));
  }
}

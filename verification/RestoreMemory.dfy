// What becomes of the memory of a restored child: the list of memory to restore, its resolution to
// tiles, and the copying (src/rtcr/restorer.cc).
module RestoreMemory {
  import opened Variants
  import opened InfoList
  import opened Memory
  import opened RamIdentify
  import opened Tiles
  import opened CopyTable
  import opened StoredState
  import opened StoredRegions
  import opened Translation
  import opened MemoryPlan
  import opened Incremental
  import opened IncrementalShipped
  import opened RegionMirror
  import opened RestoreRegions
  import CheckpointMemory

  // ---- The list of memory to restore ----

  ghost predicate DistinctCopies(jobs: seq<Job>) {
    forall i, j :: 0 <= i < j < |jobs| ==> jobs[i].copy != jobs[j].copy
  }

  // Every copy is entered at most once: records of the same dataspace share a copy, and only the first
  // of them makes an entry.
  lemma {:induction false} RegionJobsOnce(ws: seq<Want>, jobs: seq<Job>, n: nat)
    requires n <= |ws| && DistinctCopies(jobs)
    ensures DistinctCopies(RegionJobs(ws, jobs, n))
    ensures forall j :: j in jobs ==> j in RegionJobs(ws, jobs, n)
  {
    if n > 0 {
      RegionJobsOnce(ws, jobs, n - 1);
      WithMemoryOnce(ws[n - 1], RegionJobs(ws, jobs, n - 1));
    }
  }

  // Every copy of a record that does not show a region map is entered.
  lemma {:induction false} RegionJobsComplete(ws: seq<Want>, jobs: seq<Job>, n: nat, i: nat)
    requires i < n <= |ws| && DistinctCopies(jobs) && !ws[i].isMap
    ensures HasCopy(RegionJobs(ws, jobs, n), ws[i].copy)
  {
    var before := RegionJobs(ws, jobs, n - 1);
    RegionJobsOnce(ws, jobs, n - 1);
    WithMemoryOnce(ws[n - 1], before);
    if i < n - 1 {
      RegionJobsComplete(ws, jobs, n - 1, i);
      var j :| j in before && j.copy == ws[i].copy;
      assert j in WithMemory(ws[n - 1], before);
    }
  }

  // Whatever is entered was there before or comes from one of the records.
  lemma {:induction false} RegionJobsFrom(ws: seq<Want>, jobs: seq<Job>, n: nat, j: Job)
    requires n <= |ws| && j in RegionJobs(ws, jobs, n)
    ensures j in jobs || Wanted(ws, n, j)
  {
    if n > 0 {
      if j in RegionJobs(ws, jobs, n - 1) {
        RegionJobsFrom(ws, jobs, n - 1, j);
      } else {
        assert j == Job(ws[n - 1].ds, ws[n - 1].copy, 0, ws[n - 1].size);
      }
    }
  }

  ghost predicate Wanted(ws: seq<Want>, n: nat, j: Job)
    requires n <= |ws|
  {
    exists i :: 0 <= i < n && !ws[i].isMap && j == Job(ws[i].ds, ws[i].copy, 0, ws[i].size)
  }

  lemma WithMemoryOnce(w: Want, jobs: seq<Job>)
    requires DistinctCopies(jobs)
    ensures DistinctCopies(WithMemory(w, jobs)) && (forall j :: j in jobs ==> j in WithMemory(w, jobs))
    ensures !w.isMap ==> HasCopy(WithMemory(w, jobs), w.copy)
  {
    if !w.isMap && !HasCopy(jobs, w.copy) {
      var own := Job(w.ds, w.copy, 0, w.size);
      assert forall i :: 0 <= i < |jobs| ==> jobs[i] in jobs;
      assert own in [own] + jobs;
    }
  }

  // A region that was re-attached is entered with the dataspace that stands for its own.
  lemma {:induction false} ReattachedEntry(tr: seq<CkptResto>, regions: seq<Region>, stored: seq<StoredRegion>, i: nat)
    requires i < |stored| && !stored[i].bootstrapped && Translate(tr, stored[i].dsBadge).Some?
    ensures AttachedDs(tr, regions, stored, i) == Translate(tr, stored[i].dsBadge).value
  {
    ReattachedNext(tr, regions, stored, i);
    FoundInFront(NewRegion(tr, stored[i]), Reattached(tr, stored, i) + regions);
  }

  // A region that shows something else than ds ends at addr, in front of the one that contains addr.
  ghost predicate MisledAt(now: seq<Region>, addr: nat, ds: nat) {
    exists k :: 0 <= k < |now| && now[k].relAddr + now[k].size == addr && now[k].dsBadge != ds && forall j :: 0 <= j < k ==> !Inside(now[j], addr)
  }

  // A bootstrapped region is entered with the dataspace that stands for its own if and only if no region
  // that shows another one and ends at its address is in front of it.
  lemma {:induction false} BootstrappedEntryIff(tr: seq<CkptResto>, regions: seq<Region>, stored: seq<StoredRegion>, i: nat, r: Region)
    requires i < |stored| && stored[i].bootstrapped && r in regions && Renames(tr, stored[i], r)
    requires Separate(Reattached(tr, stored, i) + regions)
    ensures AttachedDs(tr, regions, stored, i) == Translate(tr, stored[i].dsBadge).value
            <==> !MisledAt(Reattached(tr, stored, i) + regions, stored[i].relAddr, Translate(tr, stored[i].dsBadge).value)
  {
    var now, addr := Reattached(tr, stored, i) + regions, stored[i].relAddr;
    ReattachedNext(tr, regions, stored, i);
    var at :| 0 <= at < |regions| && regions[at] == r;
    var own := |Reattached(tr, stored, i)| + at;
    assert now[own] == r;
    FoundUnlessMisled(now, addr, own);
  }

  lemma FoundUnlessMisled(now: seq<Region>, addr: nat, own: nat)
    requires Separate(now) && own < |now| && now[own].relAddr == addr
    ensures RegionAt(now, addr).Some?
    ensures RegionAt(now, addr).value.dsBadge == now[own].dsBadge <==> !MisledAt(now, addr, now[own].dsBadge)
  {
    SameFind(now, addr);
    assert Inside(now[own], addr) && Covers(now[own].relAddr, now[own].size, addr);
    if MisledAt(now, addr, now[own].dsBadge) {
      MisledFinds(now, addr, now[own].dsBadge);
    } else if FindRegion(now, addr) != own {
      EndsWhereFound(now, addr, own);
    }
  }

  // A region found in front of the one that starts at addr ends there.
  lemma EndsWhereFound(now: seq<Region>, addr: nat, own: nat)
    requires Separate(now) && own < |now| && now[own].relAddr == addr && FindRegion(now, addr) < own
    ensures var m := FindRegion(now, addr);
      now[m].relAddr + now[m].size == addr && forall j :: 0 <= j < m ==> !Inside(now[j], addr)
  {
    var m := FindRegion(now, addr);
    assert Inside(now[own], addr) && !Inside(now[m], addr);
    assert forall j :: 0 <= j < m ==> !Covers(now[j].relAddr, now[j].size, addr);
  }

  lemma MisledFinds(now: seq<Region>, addr: nat, ds: nat)
    requires Separate(now) && MisledAt(now, addr, ds)
    ensures FindRegion(now, addr) < |now| && now[FindRegion(now, addr)].dsBadge != ds
  {
    var k :| 0 <= k < |now| && now[k].relAddr + now[k].size == addr && now[k].dsBadge != ds && forall j :: 0 <= j < k ==> !Inside(now[j], addr);
    var m := FindRegion(now, addr);
    assert Covers(now[k].relAddr, now[k].size, addr) && m <= k;
    assert m < k ==> !Inside(now[m], addr);
  }

  lemma SameFind(now: seq<Region>, addr: nat)
    ensures RegionAt(now, addr) == if FindRegion(now, addr) < |now| then Some(now[FindRegion(now, addr)]) else None
  {
    var k, p := FindRegion(now, addr), (r: Region) => Covers(r.relAddr, r.size, addr);
    assert FirstIndex(now, p) == k;
  }

  // Two adjacent regions of the bootstrapped child, the lower one attached last: the content of the
  // upper one is entered for the dataspace of the lower one.
  lemma UpperRegionMisplaced()
    ensures var lower, upper := Region(15, 0x1000, 0, 0x1000, false, true), Region(16, 0x1000, 0, 0x2000, false, true);
      var s := StoredRegion(0, true, 6, Some(9), 0x1000, 0, 0x2000, false);
      Renames([CkptResto(6, 16)], s, upper) && AttachedDs([CkptResto(6, 16)], [lower, upper], [s], 0) == 15
  {
    var lower, upper := Region(15, 0x1000, 0, 0x1000, false, true), Region(16, 0x1000, 0, 0x2000, false, true);
    var s := StoredRegion(0, true, 6, Some(9), 0x1000, 0, 0x2000, false);
    var tr := [CkptResto(6, 16)];
    assert Reattached(tr, [s], 1) == Reattached(tr, [s], 0) == [];
    assert [] + [lower, upper] == [lower, upper];
    assert Covers(lower.relAddr, lower.size, 0x2000);
    SameFind([lower, upper], 0x2000);
  }

  // ---- Copying back ----

  // The intended direction of _restore_dataspace_content.
  ghost function RestoreJob(mem: map<nat, seq<byte>>, j: Job): map<nat, seq<byte>>
    requires CanCopy(mem, j)
  {
    mem[j.orig := Blit(mem[j.orig], 0, mem[j.copy][j.relAddr..], j.size)]
  }

  ghost function RestoreAll(jobs: seq<Job>, mem: map<nat, seq<byte>>): map<nat, seq<byte>> {
    if jobs == [] || !CanCopy(mem, jobs[0]) then mem else RestoreAll(jobs[1..], RestoreJob(mem, jobs[0]))
  }

  // No entry writes to what another one reads or writes.
  ghost predicate Independent(jobs: seq<Job>) {
    && DistinctJobs(jobs)
    && forall i, j :: 0 <= i < |jobs| && 0 <= j < |jobs| ==> jobs[i].orig != jobs[j].copy
  }

  lemma RestoreJobDone(mem: map<nat, seq<byte>>, j: Job)
    requires CanCopy(mem, j) && j.orig != j.copy
    ensures var mem' := RestoreJob(mem, j);
      && SameSlice(mem[j.copy], j.relAddr, mem'[j.orig], j.size) && |mem'[j.orig]| == |mem[j.orig]|
      && forall c :: c in mem && c != j.orig ==> mem'[c] == mem[c]
  {
    var src := mem[j.copy][j.relAddr..];
    var r := Blit(mem[j.orig], 0, src, j.size);
    forall k | 0 <= k < j.size ensures mem[j.copy][j.relAddr + k] == r[k] {
      assert r[0 + k] == src[k];
    }
  }

  // After the last entry, every dataspace entered holds what its copy holds, and nothing else changed.
  lemma {:induction false} RestoreAllDone(jobs: seq<Job>, mem: map<nat, seq<byte>>)
    requires Independent(jobs) && forall j :: j in jobs ==> CanCopy(mem, j)
    ensures var mem' := RestoreAll(jobs, mem);
      && mem'.Keys == mem.Keys
      && (forall j :: j in jobs ==> j.copy in mem && j.orig in mem' && SameSlice(mem[j.copy], j.relAddr, mem'[j.orig], j.size))
      && (forall c :: c in mem && (forall j :: j in jobs ==> j.orig != c) ==> mem'[c] == mem[c])
    decreases jobs
  {
    if jobs != [] {
      var j, rest := jobs[0], jobs[1..];
      assert jobs == [j] + rest;
      RestoreJobDone(mem, j);
      var mem1 := RestoreJob(mem, j);
      forall k | k in rest ensures CanCopy(mem1, k) && k.copy != j.orig && k.orig != j.orig {
        var i :| 0 <= i < |rest| && rest[i] == k;
        assert jobs[i + 1] == k && k in jobs && jobs[0].orig != jobs[i + 1].copy;
      }
      assert Independent(rest) by {
        assert forall i :: 0 <= i < |rest| ==> rest[i] == jobs[i + 1];
      }
      RestoreAllDone(rest, mem1);
    }
  }

  // What a dataspace has behind its entry stays.
  lemma {:induction false} RestoreAllBeyond(jobs: seq<Job>, mem: map<nat, seq<byte>>, j: Job)
    requires Independent(jobs) && (forall f :: f in jobs ==> CanCopy(mem, f)) && j in jobs
    ensures var mem' := RestoreAll(jobs, mem);
      && j.orig in mem && j.orig in mem' && |mem'[j.orig]| == |mem[j.orig]|
      && forall k :: j.size <= k < |mem[j.orig]| ==> mem'[j.orig][k] == mem[j.orig][k]
    decreases jobs
  {
    var f, rest := jobs[0], jobs[1..];
    assert jobs == [f] + rest;
    RestoreJobDone(mem, f);
    IndependentRest(jobs, mem);
    if j == f {
      forall g | g in rest ensures g.orig != j.orig {
        var i :| 0 <= i < |rest| && rest[i] == g;
        assert jobs[i + 1] == g;
      }
      RestoreAllDone(rest, RestoreJob(mem, f));
    } else {
      var i :| 0 <= i < |rest| && rest[i] == j;
      assert jobs[i + 1] == j;
      RestoreAllBeyond(rest, RestoreJob(mem, f), j);
    }
  }

  lemma IndependentRest(jobs: seq<Job>, mem: map<nat, seq<byte>>)
    requires jobs != [] && Independent(jobs) && forall f :: f in jobs ==> CanCopy(mem, f)
    ensures Independent(jobs[1..]) && forall f :: f in jobs[1..] ==> CanCopy(RestoreJob(mem, jobs[0]), f)
  {
    var rest := jobs[1..];
    assert jobs[0] in jobs;
    RestoreJobDone(mem, jobs[0]);
    forall i | 0 <= i < |rest| ensures rest[i] == jobs[i + 1] && rest[i] in jobs && rest[i].copy != jobs[0].orig && rest[i].orig != jobs[0].orig {
      assert jobs[0].orig != jobs[i + 1].copy;
    }
  }

  // ---- The whole content ----

  ghost predicate AllAttached(ds: seq<Ds>) {
    forall i, k :: Ix(ds, i, k) ==> At(ds, i, k).attached
  }

  // The list of memory to restore: whole dataspaces, each once, from copies that are no dataspaces of the child.
  ghost predicate WellEntered(ds: seq<Ds>, jobs: seq<Job>) {
    && Shaped(ds) && DistinctJobs(jobs) && NoTileEntered(ds, jobs) && (forall j :: j in jobs ==> j.relAddr == 0)
    && (forall j, j' :: j in jobs && j' in jobs ==> j.copy != j'.orig)
    && (forall j, i, k :: j in jobs && Ix(ds, i, k) ==> j.copy != At(ds, i, k).cap)
  }

  // j is the entry of a dataspace with tiles.
  ghost predicate ForManaged(ds: seq<Ds>, i: int, j: Job) {
    0 <= i < |ds| && ds[i].tiles.Some? && ds[i].badge == j.orig
  }

  // The copies are large enough.
  ghost predicate HasRoom(ds: seq<Ds>, jobs: seq<Job>, mem: map<nat, seq<byte>>) {
    && Backed(ds, mem)
    && (forall j, i :: j in jobs && ForManaged(ds, i, j) ==> j.copy in mem && Align(ds[i].size) <= |mem[j.copy]|)
    && (forall j :: j in jobs && (forall i :: !ForManaged(ds, i, j)) ==> CanCopy(mem, j))
  }

  lemma ResolvedFits(v: Variant, ds: seq<Ds>, jobs: seq<Job>, mem: map<nat, seq<byte>>, j: Job)
    requires WellEntered(ds, jobs) && HasRoom(ds, jobs, mem) && EntryAfter(v, ds, |ds|, jobs, j)
    ensures CanCopy(mem, j) && exists f :: f in jobs && f.copy == j.copy
  {
    if i: nat, k: nat, full :| i < |ds| && FromTile(v, ds, jobs, i, k, full, j) {
      assert ForManaged(ds, i, full) && Ix(ds, i, k) && At(ds, i, k) == ds[i].tiles.value[k];
      TilesBelow(ds[i].tiles.value, Align(ds[i].size), k);
    } else {
      assert Stays(ds, |ds|, jobs, j) && forall i :: !ForManaged(ds, i, j);
    }
  }

  lemma ResolvedApart(v: Variant, ds: seq<Ds>, jobs: seq<Job>, j: Job, f: Job)
    requires WellEntered(ds, jobs) && EntryAfter(v, ds, |ds|, jobs, j) && f in jobs
    ensures j.orig != f.copy
  {
    if i: nat, k: nat, full :| i < |ds| && FromTile(v, ds, jobs, i, k, full, j) {
      assert Ix(ds, i, k) && At(ds, i, k).cap == j.orig;
    }
  }

  lemma {:induction false} ResolvedIndependent(v: Variant, ds: seq<Ds>, jobs: seq<Job>, mem: map<nat, seq<byte>>)
    requires WellEntered(ds, jobs) && HasRoom(ds, jobs, mem)
    ensures var l := Resolve(v, ds, |ds|, jobs);
      ResolvedList(v, ds, |ds|, jobs, l) && Independent(l) && forall j :: j in l ==> CanCopy(mem, j)
  {
    var l := Resolve(v, ds, |ds|, jobs);
    ResolveHas(v, ds, |ds|, jobs);
    forall j | j in l ensures CanCopy(mem, j) {
      ResolvedFits(v, ds, jobs, mem, j);
    }
    forall a, b | 0 <= a < |l| && 0 <= b < |l| ensures l[a].orig != l[b].copy {
      assert l[a] in l && l[b] in l;
      ResolvedFits(v, ds, jobs, mem, l[b]);
      var f :| f in jobs && f.copy == l[b].copy;
      ResolvedApart(v, ds, jobs, l[a], f);
    }
  }

  // The content of a tile is that of its place in the copy.
  ghost predicate TileRestored(t: Tile, j: Job, mem: map<nat, seq<byte>>, mem': map<nat, seq<byte>>) {
    j.copy in mem && t.cap in mem' && SameSlice(mem[j.copy], t.relAddr, mem'[t.cap], t.size)
  }

  // Restoring in the intended direction restores every tile the resolution has picked.
  lemma {:induction false} PickedRestored(v: Variant, ds: seq<Ds>, jobs: seq<Job>, mem: map<nat, seq<byte>>, i: nat, k: nat, j: Job)
    requires WellEntered(ds, jobs) && HasRoom(ds, jobs, mem) && j in jobs && ForManaged(ds, i, j)
    requires k < |ds[i].tiles.value| && Picked(v, ds[i].tiles.value, k)
    ensures TileRestored(ds[i].tiles.value[k], j, mem, RestoreAll(Resolve(v, ds, |ds|, jobs), mem))
  {
    var own := SliceJob(ds[i].tiles.value[k], j.copy);
    ResolvedIndependent(v, ds, jobs, mem);
    RestoreAllDone(Resolve(v, ds, |ds|, jobs), mem);
    assert FromTile(v, ds, jobs, i, k, j, own);
    assert own in Resolve(v, ds, |ds|, jobs);
  }

  // A dataspace without tiles is restored as a whole.
  lemma {:induction false} WholeRestored(v: Variant, ds: seq<Ds>, jobs: seq<Job>, mem: map<nat, seq<byte>>, j: Job)
    requires WellEntered(ds, jobs) && HasRoom(ds, jobs, mem) && j in jobs && forall i :: !ForManaged(ds, i, j)
    ensures var mem' := RestoreAll(Resolve(v, ds, |ds|, jobs), mem);
      j.copy in mem && j.orig in mem' && SameSlice(mem[j.copy], 0, mem'[j.orig], j.size)
  {
    ResolvedIndependent(v, ds, jobs, mem);
    RestoreAllDone(Resolve(v, ds, |ds|, jobs), mem);
    assert Stays(ds, |ds|, jobs, j) by {
      forall i | 0 <= i < |ds| && ds[i].tiles.Some? ensures ds[i].badge != j.orig {
        assert !ForManaged(ds, i, j);
      }
    }
    assert j in Resolve(v, ds, |ds|, jobs);
  }

  lemma {:induction false} WholeBeyondKept(v: Variant, ds: seq<Ds>, jobs: seq<Job>, mem: map<nat, seq<byte>>, j: Job)
    requires WellEntered(ds, jobs) && HasRoom(ds, jobs, mem) && j in jobs && forall i :: !ForManaged(ds, i, j)
    ensures var mem' := RestoreAll(Resolve(v, ds, |ds|, jobs), mem);
      && j.orig in mem && j.orig in mem' && |mem'[j.orig]| == |mem[j.orig]|
      && forall k :: j.size <= k < |mem[j.orig]| ==> mem'[j.orig][k] == mem[j.orig][k]
  {
    ResolvedIndependent(v, ds, jobs, mem);
    assert Stays(ds, |ds|, jobs, j) by {
      forall i | 0 <= i < |ds| && ds[i].tiles.Some? ensures ds[i].badge != j.orig {
        assert !ForManaged(ds, i, j);
      }
    }
    assert j in Resolve(v, ds, |ds|, jobs);
    RestoreAllBeyond(Resolve(v, ds, |ds|, jobs), mem, j);
  }

  lemma {:induction false} ManagedByteRestored(ds: seq<Ds>, jobs: seq<Job>, mem: map<nat, seq<byte>>, i: nat, j: Job, addr: nat)
    requires WellEntered(ds, jobs) && HasRoom(ds, jobs, mem) && AllAttached(ds) && j in jobs && ForManaged(ds, i, j) && addr < ds[i].size
    ensures j.copy in mem && addr < |mem[j.copy]|
    ensures ByteAt(ds[i], RestoreAll(Resolve(Intended, ds, |ds|, jobs), mem), addr) == Some(mem[j.copy][addr])
  {
    var ts, mem' := ds[i].tiles.value, RestoreAll(Resolve(Intended, ds, |ds|, jobs), mem);
    var k := FirstIndex(ts, (t: Tile) => Contains(t, addr));
    ExactlyOneTile(ts, Align(ds[i].size), addr);
    assert k < |ts| && Ix(ds, i, k) && At(ds, i, k).attached;
    PickedRestored(Intended, ds, jobs, mem, i, k, j);
    assert mem[j.copy][ts[k].relAddr + (addr - ts[k].relAddr)] == mem'[ts[k].cap][addr - ts[k].relAddr];
    TileByteAt(ds[i], mem', k, addr);
  }

  lemma {:induction false} WholeByteRestored(ds: seq<Ds>, jobs: seq<Job>, mem: map<nat, seq<byte>>, j: Job, addr: nat)
    requires WellEntered(ds, jobs) && HasRoom(ds, jobs, mem) && j in jobs && (forall i :: !ForManaged(ds, i, j)) && addr < j.size
    ensures var mem' := RestoreAll(Resolve(Intended, ds, |ds|, jobs), mem);
      && j.copy in mem && addr < |mem[j.copy]| && j.orig in mem' && addr < |mem'[j.orig]|
      && mem'[j.orig][addr] == mem[j.copy][addr]
  {
    WholeRestored(Intended, ds, jobs, mem, j);
    assert mem[j.copy][0 + addr] == RestoreAll(Resolve(Intended, ds, |ds|, jobs), mem)[j.orig][addr];
  }

  // Into a fresh child, whose tiles are all attached, the intended resolution and direction restore every
  // byte of every dataspace that has an entry; which other dataspaces there are does not matter.
  lemma {:induction false} RestoreReproduces(ds: seq<Ds>, jobs: seq<Job>, mem: map<nat, seq<byte>>, i: nat, j: Job, addr: nat)
    requires WellEntered(ds, jobs) && HasRoom(ds, jobs, mem) && AllAttached(ds)
    requires i < |ds| && j in jobs && j.orig == ds[i].badge && addr < ds[i].size && addr < j.size
    ensures j.copy in mem && addr < |mem[j.copy]|
    ensures ByteAt(ds[i], RestoreAll(Resolve(Intended, ds, |ds|, jobs), mem), addr) == Some(mem[j.copy][addr])
  {
    if ds[i].tiles.Some? {
      ManagedByteRestored(ds, jobs, mem, i, j, addr);
    } else {
      ForNoManaged(ds, i, j);
      WholeByteRestored(ds, jobs, mem, j, addr);
      WholeByteAt(ds[i], RestoreAll(Resolve(Intended, ds, |ds|, jobs), mem), addr);
    }
  }

  lemma ForNoManaged(ds: seq<Ds>, i: nat, j: Job)
    requires Shaped(ds) && i < |ds| && ds[i].tiles.None? && j.orig == ds[i].badge
    ensures forall m :: !ForManaged(ds, m, j)
  {
  }

  // The byte at addr of a dataspace without tiles, or of one whose tile k contains it.
  lemma WholeByteAt(d: Ds, mem: map<nat, seq<byte>>, addr: nat)
    requires d.tiles.None? && addr < d.size && d.badge in mem && addr < |mem[d.badge]|
    ensures ByteAt(d, mem, addr) == Some(mem[d.badge][addr])
  {
    assert Contains(Slices(d)[0], addr);
  }

  lemma TileByteAt(d: Ds, mem: map<nat, seq<byte>>, k: nat, addr: nat)
    requires d.tiles.Some? && k < |d.tiles.value| && FirstIndex(d.tiles.value, (t: Tile) => Contains(t, addr)) == k
    requires var t := d.tiles.value[k]; t.cap in mem && addr - t.relAddr < |mem[t.cap]|
    ensures var t := d.tiles.value[k]; t.relAddr <= addr && ByteAt(d, mem, addr) == Some(mem[t.cap][addr - t.relAddr])
  {
    assert Slices(d) == d.tiles.value;
  }

  // ---- The shipped resolution ----

  // Every tile of every dataspace with an entry is restored.
  ghost predicate TilesRestored(ds: seq<Ds>, jobs: seq<Job>, mem: map<nat, seq<byte>>, mem': map<nat, seq<byte>>) {
    forall i, k, j :: j in jobs && ForManaged(ds, i, j) && 0 <= k < |ds[i].tiles.value| ==> TileRestored(ds[i].tiles.value[k], j, mem, mem')
  }

  ghost predicate OneTileEach(ds: seq<Ds>, jobs: seq<Job>) {
    forall i, j :: j in jobs && ForManaged(ds, i, j) ==> |ds[i].tiles.value| <= 1
  }

  // A tile behind the first one is never entered, so it keeps its content.
  lemma {:induction false} SecondTileKept(ds: seq<Ds>, jobs: seq<Job>, mem: map<nat, seq<byte>>, i: nat, k: nat)
    requires WellEntered(ds, jobs) && HasRoom(ds, jobs, mem) && i < |ds| && ds[i].tiles.Some? && 0 < k < |ds[i].tiles.value|
    ensures var t, mem' := ds[i].tiles.value[k], RestoreAll(Resolve(Shipped, ds, |ds|, jobs), mem);
      t.cap in mem && t.cap in mem' && mem'[t.cap] == mem[t.cap]
  {
    var t, l := ds[i].tiles.value[k], Resolve(Shipped, ds, |ds|, jobs);
    assert Ix(ds, i, k) && At(ds, i, k) == t;
    ResolvedIndependent(Shipped, ds, jobs, mem);
    forall j | j in l ensures j.orig != t.cap {
      if m: nat, n: nat, full :| m < |ds| && FromTile(Shipped, ds, jobs, m, n, full, j) {
        assert Slices(ds[m])[n].cap == j.orig && Slices(ds[i])[k].cap == t.cap;
      }
    }
    RestoreAllDone(l, mem);
  }

  ghost function LargestJob(jobs: seq<Job>): (n: nat)
    ensures forall j :: j in jobs ==> j.size <= n
  {
    if jobs == [] then 0
    else
      var rest := LargestJob(jobs[1..]);
      assert jobs == [jobs[0]] + jobs[1..];
      if jobs[0].size > rest then jobs[0].size else rest
  }

  ghost function EntryCopies(jobs: seq<Job>): set<nat> {
    set j | j in jobs :: j.copy
  }

  ghost function EntryOrigs(jobs: seq<Job>): set<nat> {
    set j | j in jobs :: j.orig
  }

  // Every dataspace is zero, every copy is one.
  ghost function ZerosToOnes(ds: seq<Ds>, jobs: seq<Job>): map<nat, seq<byte>> {
    map c | c in SliceCaps(ds) + EntryOrigs(jobs) + EntryCopies(jobs) ::
      Fill(Room(ds) + LargestJob(jobs), if c in EntryCopies(jobs) then 1 else 0)
  }

  lemma {:induction false} ZerosToOnesHolds(ds: seq<Ds>, jobs: seq<Job>, c: nat)
    requires c in SliceCaps(ds) || c in EntryOrigs(jobs) || c in EntryCopies(jobs)
    ensures c in ZerosToOnes(ds, jobs) && |ZerosToOnes(ds, jobs)[c]| == Room(ds) + LargestJob(jobs)
    ensures forall k :: 0 <= k < |ZerosToOnes(ds, jobs)[c]| ==> ZerosToOnes(ds, jobs)[c][k] == if c in EntryCopies(jobs) then 1 else 0
  {
  }

  // As much memory everywhere as the largest dataspace or entry needs.
  lemma {:induction false} EqualRoom(ds: seq<Ds>, jobs: seq<Job>, mem: map<nat, seq<byte>>, n: nat)
    requires WellEntered(ds, jobs) && Room(ds) <= n && LargestJob(jobs) <= n
    requires forall c :: c in SliceCaps(ds) || c in EntryOrigs(jobs) || c in EntryCopies(jobs) ==> c in mem && |mem[c]| == n
    ensures HasRoom(ds, jobs, mem)
  {
    forall i, k | Ix(ds, i, k) ensures At(ds, i, k).cap in mem && At(ds, i, k).size <= |mem[At(ds, i, k).cap]| {
      SliceFits(ds, i, k);
    }
    forall j | j in jobs ensures j.copy in mem && j.orig in mem && |mem[j.copy]| == |mem[j.orig]| == n {
      assert j.copy in EntryCopies(jobs) && j.orig in EntryOrigs(jobs);
    }
  }

  lemma ZerosToOnesRoom(ds: seq<Ds>, jobs: seq<Job>)
    requires WellEntered(ds, jobs)
    ensures HasRoom(ds, jobs, ZerosToOnes(ds, jobs))
  {
    forall c | c in SliceCaps(ds) || c in EntryOrigs(jobs) || c in EntryCopies(jobs)
      ensures c in ZerosToOnes(ds, jobs) && |ZerosToOnes(ds, jobs)[c]| == Room(ds) + LargestJob(jobs)
    {
      ZerosToOnesHolds(ds, jobs, c);
    }
    EqualRoom(ds, jobs, ZerosToOnes(ds, jobs), Room(ds) + LargestJob(jobs));
  }

  // With the intended direction, the shipped resolution restores every content of a fresh child if and only
  // if no managed dataspace has a second tile.
  lemma {:induction false} ShippedRestoresAllIff(ds: seq<Ds>, jobs: seq<Job>)
    requires WellEntered(ds, jobs) && AllAttached(ds)
    ensures (forall mem :: HasRoom(ds, jobs, mem) ==> TilesRestored(ds, jobs, mem, RestoreAll(Resolve(Shipped, ds, |ds|, jobs), mem)))
            <==> OneTileEach(ds, jobs)
  {
    if OneTileEach(ds, jobs) {
      forall mem, i, k, j | HasRoom(ds, jobs, mem) && j in jobs && ForManaged(ds, i, j) && 0 <= k < |ds[i].tiles.value|
        ensures TileRestored(ds[i].tiles.value[k], j, mem, RestoreAll(Resolve(Shipped, ds, |ds|, jobs), mem))
      {
        assert k == 0 && Ix(ds, i, k) && At(ds, i, k).attached;
        PickedRestored(Shipped, ds, jobs, mem, i, k, j);
      }
    } else {
      var i, j :| j in jobs && ForManaged(ds, i, j) && |ds[i].tiles.value| > 1;
      SecondTileLost(ds, jobs, i, j);
    }
  }

  lemma {:induction false} SecondTileLost(ds: seq<Ds>, jobs: seq<Job>, i: nat, j: Job)
    requires WellEntered(ds, jobs) && j in jobs && ForManaged(ds, i, j) && |ds[i].tiles.value| > 1
    ensures var mem := ZerosToOnes(ds, jobs);
      HasRoom(ds, jobs, mem) && !TilesRestored(ds, jobs, mem, RestoreAll(Resolve(Shipped, ds, |ds|, jobs), mem))
  {
    var mem, t := ZerosToOnes(ds, jobs), ds[i].tiles.value[1];
    var mem' := RestoreAll(Resolve(Shipped, ds, |ds|, jobs), mem);
    ZerosToOnesRoom(ds, jobs);
    SecondTileKept(ds, jobs, mem, i, 1);
    TilesBelow(ds[i].tiles.value, Align(ds[i].size), 1);
    assert Ix(ds, i, 1) && At(ds, i, 1) == t;
    assert j.copy in EntryCopies(jobs) && t.cap !in EntryCopies(jobs);
    SliceFits(ds, i, 1);
    ZerosToOnesHolds(ds, jobs, j.copy);
    ZerosToOnesHolds(ds, jobs, t.cap);
    assert mem[j.copy][t.relAddr + 0] != mem'[t.cap][0];
  }

  // A managed dataspace of two pages: the lower one is not restored.
  lemma LowerTileNotRestored()
    ensures var ds, jobs := [Ds(1, 8192, Some([Tile(3, 4096, 4096, true), Tile(2, 0, 4096, true)]))], [Job(1, 9, 0, 8192)];
      var mem := ZerosToOnes(ds, jobs);
      HasRoom(ds, jobs, mem) && !TilesRestored(ds, jobs, mem, RestoreAll(Resolve(Shipped, ds, |ds|, jobs), mem))
  {
    var ts := [Tile(3, 4096, 4096, true), Tile(2, 0, 4096, true)];
    var ds, jobs := [Ds(1, 8192, Some(ts))], [Job(1, 9, 0, 8192)];
    assert ts[1..] == [Tile(2, 0, 4096, true)] && ts[1..][1..] == [];
    assert Align(8192) == 8192;
    assert ForManaged(ds, 0, jobs[0]) && jobs[0] in jobs;
    SecondTileLost(ds, jobs, 0, jobs[0]);
  }

  // ---- The shipped direction ----

  // It is that of a checkpoint.  No dataspace of the child changes, so none is restored.
  lemma {:induction false} ShippedRestoresNothing(jobs: seq<Job>, mem: map<nat, seq<byte>>, c: nat)
    requires c in mem && forall j :: j in jobs ==> j.copy != c
    ensures c in CopyAll(jobs, mem) && CopyAll(jobs, mem)[c] == mem[c]
    decreases jobs
  {
    if jobs != [] && CanCopy(mem, jobs[0]) {
      assert jobs[0] in jobs;
      ShippedRestoresNothing(jobs[1..], CopyJob(mem, jobs[0]), c);
    }
  }

  // _restore_dataspaces, whose loop is that of _checkpoint_dataspaces: only copies are written.
  method RestoreDataspaces(jobs: seq<Job>, mem: map<nat, array<byte>>)
    requires CheckpointMemory.Unaliased(mem) && CheckpointMemory.AllCanCopy(CheckpointMemory.Contents(mem), jobs)
    modifies mem.Values
    ensures CheckpointMemory.Contents(mem) == CopyAll(jobs, old(CheckpointMemory.Contents(mem)))
    ensures forall c :: c in mem && (forall j :: j in jobs ==> j.copy != c) ==> mem[c][..] == old(mem[c][..])
  {
    ghost var before := CheckpointMemory.Contents(mem);
    CheckpointMemory.CheckpointDataspaces(jobs, mem);
    forall c | c in mem && (forall j :: j in jobs ==> j.copy != c) ensures mem[c][..] == old(mem[c][..]) {
      ShippedRestoresNothing(jobs, before, c);
      assert CheckpointMemory.Contents(mem)[c] == before[c];
    }
  }

  // So, with either resolution, the shipped direction is right exactly for the tiles that already were
  // what they should become.
  lemma {:induction false} ShippedRightIff(v: Variant, ds: seq<Ds>, jobs: seq<Job>, mem: map<nat, seq<byte>>, i: nat, k: nat, j: Job)
    requires WellEntered(ds, jobs) && HasRoom(ds, jobs, mem) && j in jobs && ForManaged(ds, i, j) && k < |ds[i].tiles.value|
    ensures var t := ds[i].tiles.value[k];
      TileRestored(t, j, mem, CopyAll(Resolve(v, ds, |ds|, jobs), mem)) <==> TileRestored(t, j, mem, mem)
  {
    var l, t := Resolve(v, ds, |ds|, jobs), ds[i].tiles.value[k];
    assert Ix(ds, i, k) && At(ds, i, k) == t;
    ResolvedIndependent(v, ds, jobs, mem);
    forall f | f in l ensures f.copy != t.cap {
      ResolvedFits(v, ds, jobs, mem, f);
    }
    ShippedRestoresNothing(l, mem, t.cap);
  }
}
